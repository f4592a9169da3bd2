/** evbuffer_remove_buffer: a number of bytes from one evbuffer to the end of another. */
module EvbufferRemove {
  import opened Bytes
  import opened Chains
  import opened Lists
  import opened EvbufferAppend
  import opened EvbufferDrain
  import opened EvbufferMove

  /**
   * The loop of evbuffer_remove_buffer over the chunks that move whole. A last_with_datap in
   * the `next` slot of one of them falls back to `&first`.
   */
  method WalkMoved(src: Evbuffer, ghost cs: seq<Chain>, ghost vs: seq<seq<byte>>, len: nat)
    returns (previous: Chain, chain: Chain, nread: nat, remaining: nat, ghost k: nat)
    requires Rep(src, cs, vs) && len < |Flatten(vs)|
    modifies src`lastWithDataPrev
    ensures k <= LastData(vs) < |cs| && chain == cs[k] && remaining < |vs[k]| && nread + remaining == len
    ensures nread == |Flatten(vs[..k])|
    ensures k > 0 ==> previous == cs[k - 1]
    ensures src.lastWithDataPrev == if LastData(vs) <= k then null else cs[LastData(vs) - 1]
  {
    ghost var d := LastData(vs);
    k := 0;
    DataAhead(vs, 0);
    chain, previous, remaining, nread := src.first, src.first, len, 0;
    assert Stores(chain, vs[0]);
    while chain.off <= remaining
      invariant k <= d < |cs| && chain == cs[k] && chain.off == |vs[k]|
      invariant k > 0 ==> previous == cs[k - 1]
      invariant nread == |Flatten(vs[..k])| && nread + remaining == len
      invariant src.lastWithDataPrev == if d <= k then null else cs[d - 1]
      decreases |cs| - k
    {
      TakeOneMore(vs, k);
      DataAhead(vs, k + 1);
      Alone(cs, k);
      assert chain != LastWithData(src);
      nread, remaining := nread + chain.off, remaining - chain.off;
      previous := chain;
      if src.lastWithDataPrev == chain {
        src.lastWithDataPrev := null;
      }
      chain, k := chain.next, k + 1;
      assert Stores(cs[k], vs[k]);
    }
  }

  /** The first k chunks of `src` leave its list. */
  method Detach(src: Evbuffer, ghost css: seq<Chain>, ghost k: nat, previous: Chain, chain: Chain)
    requires Linked(src, css) && 0 < k < |css| && previous == css[k - 1] && chain == css[k]
    modifies src`first, previous`next
    ensures Linked(src, css[k..])
    ensures Distinct(css[..k]) && Chained(css[..k]) && Members(css[..k]) !! Members(css[k..])
  {
    Alone(css, k - 1);
    DistinctSlice(css, 0, k);
    DistinctDrop(css, k);
    SlicesApart(css, k);
    previous.next := null;
    src.first := chain;
  }

  lemma SlicesApart(cs: seq<Chain>, k: nat)
    requires Distinct(cs) && k <= |cs|
    ensures Members(cs[..k]) !! Members(cs[k..])
    ensures Members(cs[..k]) + Members(cs[k..]) == Members(cs)
  {
    forall c | c in cs[..k]
      ensures c !in cs[k..]
    {
      var i :| 0 <= i < k && cs[i] == c;
      Alone(cs, i);
    }
    assert cs == cs[..k] + cs[k..];
  }

  /** The detached chunks `moved`, `head` to `tail`, follow chunk number m of `dst`. */
  method Attach(dst: Evbuffer, ghost cs: seq<Chain>, ghost moved: seq<Chain>, prev: Chain?, head: Chain, tail: Chain)
    requires Distinct(cs) && Chained(cs) && dst.first == Nth(cs, 0) && prev == Before(cs, |cs|)
    requires Distinct(moved) && Chained(moved) && |moved| > 0 && head == moved[0] && tail == moved[|moved| - 1]
    requires Members(cs) !! Members(moved)
    modifies dst`first, dst`last, (if prev == null then {} else {prev})`next
    ensures Linked(dst, cs + moved)
  {
    if prev == null {
      dst.first := head;
      assert cs + moved == moved;
    } else {
      Join(cs, prev, moved, head);
    }
    dst.last := tail;
  }

  /** advance_last_with_data gets to the last chunk with data exactly when no empty one stands on the way. */
  lemma {:induction false} AdvanceMeans(vs: seq<seq<byte>>, d: nat)
    requires d <= LastData(vs) < |vs| && vs[LastData(vs)] != []
    ensures var e := AdvanceTo(vs, d);
      && e <= LastData(vs) && (e < LastData(vs) ==> vs[e + 1] == [])
      && (e == LastData(vs) <==> forall i :: d < i < LastData(vs) ==> vs[i] != [])
    decreases |vs| - d
  {
    LastDataIsLast(vs);
    if d + 1 < |vs| && vs[d + 1] != [] {
      AdvanceMeans(vs, d + 1);
    }
  }

  /** The pieces of the destination when those in `front` have moved whole: they come after its last data. */
  ghost function Moved(vsd: seq<seq<byte>>, front: seq<seq<byte>>): seq<seq<byte>> {
    if Flatten(front) == [] then vsd else vsd[..FirstVictim(vsd, LastData(vsd))] + front
  }

  ghost function MovedChunks(csd: seq<Chain>, vsd: seq<seq<byte>>, chunks: seq<Chain>, front: seq<seq<byte>>): seq<Chain>
    requires |csd| == |vsd|
  {
    if Flatten(front) == [] then csd else csd[..FirstVictim(vsd, LastData(vsd))] + chunks
  }

  /** Where last_with_datap of the destination is then. */
  ghost function MovedSlot(vsd: seq<seq<byte>>, front: seq<seq<byte>>): nat {
    if Flatten(front) == [] then LastData(vsd) else AdvanceTo(Moved(vsd, front), LastData(vsd))
  }

  /**
   * No chunk that moves is empty and stands before data that moves; the very first one may be,
   * if the destination stores nothing.
   */
  ghost predicate NoGap(vsd: seq<seq<byte>>, front: seq<seq<byte>>) {
    forall i :: (if Flatten(vsd) == [] then 1 else 0) <= i < LastData(front) ==> front[i] != []
  }

  lemma CutPieces(vsd: seq<seq<byte>>)
    ensures var m := FirstVictim(vsd, LastData(vsd));
      && m == (if Flatten(vsd) == [] then LastData(vsd) else LastData(vsd) + 1)
      && Flatten(vsd[..m]) == Flatten(vsd)
      && (m > 0 ==> vsd[m - 1] != [])
  {
    var d := LastData(vsd);
    var m := FirstVictim(vsd, d);
    LastDataIsLast(vsd);
    FirstVictimIsFirst(vsd, d);
    if |vsd| > 0 {
      NoDataIffFirstEmpty(vsd);
    }
    FlattenCut(vsd, m);
  }

  /** What that means, when there is data that moves. */
  lemma MovedMeans(vsd: seq<seq<byte>>, front: seq<seq<byte>>)
    requires Flatten(front) != []
    ensures var vs, e := Moved(vsd, front), MovedSlot(vsd, front);
      && Flatten(vs) == Flatten(vsd) + Flatten(front)
      && LastData(vsd) <= LastData(vs) < |vs| && Flatten(vs) != []
      && e <= LastData(vs) && (e < LastData(vs) ==> vs[e + 1] == [])
      && (e == LastData(vs) <==> NoGap(vsd, front))
  {
    var d := LastData(vsd);
    var m := FirstVictim(vsd, d);
    var vs := vsd[..m] + front;
    CutPieces(vsd);
    LastDataJoin(vsd[..m], front);
    LastDataIsLast(front);
    NoDataIffFirstEmpty(front);
    var l := LastData(vs);
    assert vs[l] == front[LastData(front)];
    AdvanceMeans(vs, d);
    GapBehind(vsd[..m], front, d, l);
  }

  /** Between places d and l of the two lists together the pieces are those of `front`. */
  lemma GapBehind(a: seq<seq<byte>>, front: seq<seq<byte>>, d: nat, l: nat)
    requires |a| <= d + 1 && d <= |a| && |a| <= l < |a| + |front|
    ensures (forall i :: d < i < l ==> (a + front)[i] != []) <==>
            (forall i :: d + 1 - |a| <= i < l - |a| ==> front[i] != [])
  {
    var vs := a + front;
    if forall i :: d < i < l ==> vs[i] != [] {
      forall i | d + 1 - |a| <= i < l - |a|
        ensures front[i] != []
      {
        assert vs[|a| + i] == front[i];
      }
    }
  }

  /** Pieces without a gap, behind data or not, and none to spare. */
  lemma MovedDense(vsd: seq<seq<byte>>, front: seq<seq<byte>>)
    requires forall i :: 0 <= i < |front| ==> front[i] != []
    requires NoSpare(vsd)
    ensures NoGap(vsd, front) && NoSpare(Moved(vsd, front))
    ensures IsTight(vsd) ==> IsTight(Moved(vsd, front))
  {
    if Flatten(front) != [] {
      var m := FirstVictim(vsd, LastData(vsd));
      CutPieces(vsd);
      LastDataIsLast(front);
      LastDataJoin(vsd[..m], front);
      LastDataIs(front, |front| - 1);
    }
  }

  /** Linked, with its pieces and its length, wherever last_with_datap stands. */
  ghost predicate Stored(buf: Evbuffer, cs: seq<Chain>, vs: seq<seq<byte>>)
    reads buf`first, buf`last, buf`totalLen, Members(cs)
  {
    Linked(buf, cs) && Holds(cs, vs) && buf.totalLen == |Flatten(vs)|
  }

  /** `dst` goes on with the detached chunks, and its last_with_datap moves up over data. */
  method AttachMoved(dst: Evbuffer, ghost cs: seq<Chain>, ghost vs: seq<seq<byte>>, ghost d: nat,
                     ghost moved: seq<Chain>, ghost front: seq<seq<byte>>,
                     prev: Chain?, head: Chain, tail: Chain, nread: nat)
    requires Distinct(cs) && Chained(cs) && Holds(cs, vs) && dst.first == Nth(cs, 0) && prev == Before(cs, |cs|)
    requires Distinct(moved) && Chained(moved) && Holds(moved, front)
    requires |moved| > 0 && head == moved[0] && tail == moved[|moved| - 1]
    requires Members(cs) !! Members(moved)
    requires d < |cs + moved| && SlotAt(dst, cs + moved, d)
    requires dst.totalLen + nread == |Flatten(vs + front)|
    modifies dst, (if prev == null then {} else {prev})`next
    ensures Stored(dst, cs + moved, vs + front) && SlotAt(dst, cs + moved, AdvanceTo(vs + front, d))
  {
    HoldsJoin(cs, vs, moved, front);
    Attach(dst, cs, moved, prev, head, tail);
    AdvanceLastWithData(dst, cs + moved, vs + front, d);
    dst.totalLen := dst.totalLen + nread;
  }

  /** Both lists are cut: `dst` loses its empty chunks at the end, `src` its first k chunks. */
  method CutBoth(dst: Evbuffer, ghost csd: seq<Chain>, ghost vsd: seq<seq<byte>>,
                 src: Evbuffer, ghost css: seq<Chain>, ghost vss: seq<seq<byte>>, ghost k: nat, previous: Chain, chain: Chain)
    returns (prev: Chain?, ghost m: nat)
    requires dst != src && Rep(dst, csd, vsd) && Linked(src, css) && Holds(css, vss)
    requires Members(csd) !! Members(css)
    requires 0 < k < |css| && previous == css[k - 1] && chain == css[k]
    modifies dst`first, src`first, Members(csd)`next, Members(css)`next
    ensures m == FirstVictim(vsd, LastData(vsd)) <= |csd| && prev == Before(csd, m)
    ensures Distinct(csd[..m]) && Chained(csd[..m]) && Holds(csd[..m], vsd[..m]) && dst.first == Nth(csd[..m], 0)
    ensures Distinct(css[..k]) && Chained(css[..k]) && Holds(css[..k], vss[..k])
    ensures Members(csd[..m]) !! Members(css[..k]) && Linked(src, css[k..]) && Members(css[..k]) !! Members(css[k..])
  {
    prev, m := FreeTrailingEmpty(dst, csd, vsd);
    DistinctSlice(csd, 0, m);
    SlicesApart(csd, m);
    SlicesApart(css, k);
    HoldsSlice(csd, vsd, 0, m);
    HoldsSlice(css, vss, 0, k);
    Detach(src, css, k, previous, chain);
    assert previous in Members(css);
    assert Chained(csd[..m]);
  }

  lemma BeforeCut(cs: seq<Chain>, m: nat, more: seq<Chain>, d: nat)
    requires d <= m <= |cs|
    ensures Before(cs[..m] + more, d) == Before(cs, d)
  {
  }

  /** The whole chunks that evbuffer_remove_buffer moves. */
  method MoveWhole(dst: Evbuffer, ghost csd: seq<Chain>, ghost vsd: seq<seq<byte>>,
                   src: Evbuffer, ghost css: seq<Chain>, ghost vss: seq<seq<byte>>,
                   ghost k: nat, previous: Chain, chain: Chain, nread: nat)
    requires dst != src && Rep(dst, csd, vsd) && Linked(src, css) && Holds(css, vss)
    requires Members(csd) !! Members(css)
    requires 0 < k < |css| && previous == css[k - 1] && chain == css[k] && nread == |Flatten(vss[..k])| > 0
    modifies dst, src`first, Members(csd)`next, Members(css)`next
    ensures var cs, vs := MovedChunks(csd, vsd, css[..k], vss[..k]), Moved(vsd, vss[..k]);
      Stored(dst, cs, vs) && SlotAt(dst, cs, MovedSlot(vsd, vss[..k]))
    ensures Linked(src, css[k..])
  {
    ghost var m;
    var prev, head := null, src.first;
    PlaceMoved(csd, vsd, css[..k], vss[..k]);
    prev, m := CutBoth(dst, csd, vsd, src, css, vss, k, previous, chain);
    assert Moved(vsd, vss[..k]) == vsd[..m] + vss[..k] && MovedChunks(csd, vsd, css[..k], vss[..k]) == csd[..m] + css[..k];
    AttachMoved(dst, csd[..m], vsd[..m], LastData(vsd), css[..k], vss[..k], prev, head, previous, nread);
  }

  /** Where last_with_datap of the destination is when its list is about to go on with `chunks`. */
  lemma PlaceMoved(csd: seq<Chain>, vsd: seq<seq<byte>>, chunks: seq<Chain>, front: seq<seq<byte>>)
    requires |csd| == |vsd| && |chunks| == |front| && Flatten(front) != []
    ensures var m, d := FirstVictim(vsd, LastData(vsd)), LastData(vsd);
      && d <= m <= |csd| && d < |csd[..m] + chunks|
      && Before(csd[..m] + chunks, d) == Before(csd, d)
      && |Flatten(vsd[..m] + front)| == |Flatten(vsd)| + |Flatten(front)|
  {
    MovedMeans(vsd, front);
    CutPieces(vsd);
    BeforeCut(csd, FirstVictim(vsd, LastData(vsd)), chunks, LastData(vsd));
  }

  /** What stays with the source: its list, the pieces, and the place of the chunk that is split. */
  ghost function KeptChunks(css: seq<Chain>, vss: seq<seq<byte>>, k: nat): (cs: seq<Chain>)
    requires k <= |css| == |vss|
    ensures |cs| == |Kept(vss, k)|
  {
    if Flatten(vss[..k]) == [] then css else css[k..]
  }

  ghost function Kept(vss: seq<seq<byte>>, k: nat): seq<seq<byte>>
    requires k <= |vss|
  {
    if Flatten(vss[..k]) == [] then vss else vss[k..]
  }

  ghost function KeptAt(vss: seq<seq<byte>>, k: nat): (j: nat)
    requires k <= |vss|
    ensures k < |vss| ==> j < |Kept(vss, k)| && Kept(vss, k)[j] == vss[k]
  {
    if Flatten(vss[..k]) == [] then k else 0
  }

  /** The pieces of the source in the end: `n` bytes of piece k have gone, and what stood before them if it was data. */
  ghost function Left(vss: seq<seq<byte>>, k: nat, n: nat): seq<seq<byte>>
    requires k < |vss| && n <= |vss[k]|
  {
    Kept(vss, k)[KeptAt(vss, k) := vss[k][n..]]
  }

  /** All data is in one chunk, and the first chunk is an empty one. */
  ghost predicate LosesSlot(vss: seq<seq<byte>>) {
    |vss| > 0 && vss[0] == [] && |vss[LastData(vss)]| == |Flatten(vss)|
  }

  lemma LeftMeans(vss: seq<seq<byte>>, k: nat, n: nat)
    requires k < |vss| && n < |vss[k]|
    ensures Flatten(vss) == Flatten(vss[..k]) + vss[k][..n] + Flatten(Left(vss, k, n))
    ensures k <= LastData(vss)
    ensures LastData(Left(vss, k, n)) == if Flatten(vss[..k]) == [] then LastData(vss) else LastData(vss) - k
    ensures IsTight(vss) ==> IsTight(Left(vss, k, n))
  {
    var left := Left(vss, k, n);
    LastDataIsLast(vss);
    FromMeans(vss, k, n);
    if Flatten(vss[..k]) == [] {
      LeftInPlace(vss, k, n);
    } else {
      assert left == From(vss, k, n);
    }
  }

  lemma LeftInPlace(vss: seq<seq<byte>>, k: nat, n: nat)
    requires k < |vss| && n < |vss[k]| && Flatten(vss[..k]) == []
    ensures var left := vss[k := vss[k][n..]];
      && Flatten(vss) == Flatten(vss[..k]) + vss[k][..n] + Flatten(left)
      && LastData(left) == LastData(vss) && (IsTight(vss) ==> IsTight(left))
  {
    var left := vss[k := vss[k][n..]];
    FromContent(vss, k, n);
    FlattenUpdate(vss, k, vss[k][n..]);
    assert From(vss, k, n)[1..] == vss[k + 1..];
    assert [] + vss[k][n..] == vss[k][n..];
    LastDataIsLast(vss);
    LastDataIs(left, LastData(vss));
  }

  /** The last data is in chunk k, and only empty chunks stand before it. */
  lemma LosesIff(vss: seq<seq<byte>>, k: nat)
    requires k < |vss| && vss[k] != []
    ensures LosesSlot(vss) <==> Flatten(vss[..k]) == [] && 0 < k == LastData(vss)
  {
    var d := LastData(vss);
    LastDataIsLast(vss);
    DataUpTo(vss, d);
    if Flatten(vss[..k]) == [] && k > 0 {
      DataIn(vss, 0, k);
    }
    if LosesSlot(vss) && k < d {
      DataIn(vss, k, d);
    }
  }

  /** Nothing is stored behind the last chunk with data. */
  lemma DataUpTo(vs: seq<seq<byte>>, d: nat)
    requires d < |vs| && forall i :: d < i < |vs| ==> vs[i] == []
    ensures |Flatten(vs)| == |Flatten(vs[..d])| + |vs[d]|
  {
    FlattenSplit(vs, d);
    FlattenEmpties(vs[d + 1..]);
  }

  lemma DataIn(vs: seq<seq<byte>>, i: nat, k: nat)
    requires i < k <= |vs|
    ensures |vs[i]| <= |Flatten(vs[..k])|
  {
    FlattenSplit(vs[..k], i);
    assert vs[..k][i] == vs[i];
  }

  /** The chunks that move whole, if there is data in them. */
  method MoveChunks(dst: Evbuffer, ghost csd: seq<Chain>, ghost vsd: seq<seq<byte>>,
                    src: Evbuffer, ghost css: seq<Chain>, ghost vss: seq<seq<byte>>,
                    ghost k: nat, previous: Chain, chain: Chain, nread: nat)
    requires dst != src && Rep(dst, csd, vsd) && Linked(src, css) && Holds(css, vss)
    requires Members(csd) !! Members(css)
    requires k < |css| && (k > 0 ==> previous == css[k - 1]) && chain == css[k] && nread == |Flatten(vss[..k])|
    modifies dst, src`first, Members(csd)`next, Members(css)`next
    ensures var cs, vs := MovedChunks(csd, vsd, css[..k], vss[..k]), Moved(vsd, vss[..k]);
      Stored(dst, cs, vs) && SlotAt(dst, cs, MovedSlot(vsd, vss[..k]))
    ensures Linked(src, KeptChunks(css, vss, k))
  {
    if nread > 0 {
      assert k > 0;
      MoveWhole(dst, csd, vsd, src, css, vss, k, previous, chain, nread);
    }
  }

  lemma MovedApart(csd: seq<Chain>, vsd: seq<seq<byte>>, css: seq<Chain>, vss: seq<seq<byte>>, k: nat)
    requires |csd| == |vsd| && k < |css| == |vss| && Distinct(css) && Members(csd) !! Members(css)
    ensures var cs := MovedChunks(csd, vsd, css[..k], vss[..k]);
      && |cs| == |Moved(vsd, vss[..k])|
      && Members(cs) !! Members(KeptChunks(css, vss, k)) && Members(cs) <= Members(csd) + Members(css)
      && KeptChunks(css, vss, k)[KeptAt(vss, k)] == css[k]
      && Members(KeptChunks(css, vss, k)) <= Members(css)
  {
    SlicesApart(css, k);
  }

  /** The chunks that move whole, and what `src` is left with. */
  method MoveFront(src: Evbuffer, ghost css: seq<Chain>, ghost vss: seq<seq<byte>>,
                   dst: Evbuffer, ghost csd: seq<Chain>, ghost vsd: seq<seq<byte>>, datlen: nat)
    returns (chain: Chain, rest: nat, ghost k: nat)
    requires Rep(src, css, vss) && Rep(dst, csd, vsd)
    requires dst != src && Members(csd) !! Members(css) && datlen < |Flatten(vss)|
    modifies src`first, src`lastWithDataPrev, dst, Members(css)`next, Members(csd)`next
    ensures k <= LastData(vss) < |css| && chain == css[k] && rest < |vss[k]| && datlen == |Flatten(vss[..k])| + rest
    ensures var cs, vs := MovedChunks(csd, vsd, css[..k], vss[..k]), Moved(vsd, vss[..k]);
      Stored(dst, cs, vs) && SlotAt(dst, cs, MovedSlot(vsd, vss[..k]))
    ensures Linked(src, KeptChunks(css, vss, k)) && Holds(KeptChunks(css, vss, k), Kept(vss, k))
    ensures src.lastWithDataPrev == if LastData(vss) <= k then null else css[LastData(vss) - 1]
    ensures var cs, kept := MovedChunks(csd, vsd, css[..k], vss[..k]), KeptChunks(css, vss, k);
      && Members(cs) !! Members(kept) && Members(cs) <= Members(csd) + Members(css)
      && kept[KeptAt(vss, k)] == css[k] && Members(kept) <= Members(css)
      && LastSize(cs) == old(LastSize(cs)) && LastMisalign(cs) == old(LastMisalign(cs))
  {
    var previous, nread;
    previous, chain, nread, rest, k := WalkMoved(src, css, vss, datlen);
    MoveChunks(dst, csd, vsd, src, css, vss, k, previous, chain, nread);
    HoldsDrop(css, vss, k);
    MovedApart(csd, vsd, css, vss, k);
  }

  /** evbuffer_add to `dst` leaves `src` as it is. */
  method AddBeside(dst: Evbuffer, ghost csd: seq<Chain>, ghost vsd: seq<seq<byte>>, ghost d: nat,
                   src: Evbuffer, ghost cs: seq<Chain>, ghost vs: seq<seq<byte>>, data: seq<byte>)
    returns (halted: bool, ghost csd': seq<Chain>)
    requires dst != src && Stored(dst, csd, vsd) && SlotAt(dst, csd, d) && (|csd| > 0 ==> d < |csd|)
    requires Linked(src, cs) && Holds(cs, vs) && Members(csd) !! Members(cs)
    modifies dst, Members(csd)
    ensures Linked(src, cs) && Holds(cs, vs) && Members(cs) !! Members(csd') && fresh(Members(csd') - Members(csd))
    ensures old(|vsd| > 0 ==> LastFits(vsd, LastSize(csd), LastMisalign(csd)))
    ensures var r := AddAnySpec(vsd, d, data, old(LastSize(csd)), old(LastMisalign(csd)));
      && (halted <==> r.Halts?)
      && (!halted ==>
            && Linked(dst, csd') && Holds(csd', r.views) && SlotAt(dst, csd', r.lwd)
            && dst.totalLen == |Flatten(vsd)| + |data|)
  {
    halted, csd' := AddAny(dst, csd, vsd, d, data);
  }

  /** The first n bytes of chunk k go. */
  method DropAt(chain: Chain, n: nat, ghost cs: seq<Chain>, ghost vs: seq<seq<byte>>, ghost k: nat)
    requires Holds(cs, vs) && Distinct(cs) && k < |cs| && chain == cs[k] && n <= |vs[k]|
    modifies chain`misalign, chain`off
    ensures Holds(cs, vs[k := vs[k][n..]])
  {
    assert Stores(chain, vs[k]);
    Alone(cs, k);
    chain.misalign := chain.misalign + n;
    chain.off := chain.off - n;
    forall i | 0 <= i < |cs|
      ensures Stores(cs[i], vs[k := vs[k][n..]][i])
    {
      assert i != k ==> old(Stores(cs[i], vs[i]));
    }
  }

  /** The bytes that move out of the chunk that is split: copied to the end of `dst`, dropped from `src`. */
  method MoveBytes(src: Evbuffer, ghost cs: seq<Chain>, ghost vs: seq<seq<byte>>, ghost j: nat, chain: Chain, n: nat, total: nat,
                   dst: Evbuffer, ghost csd: seq<Chain>, ghost vsd: seq<seq<byte>>, ghost d: nat)
    returns (halted: bool, ghost csd': seq<Chain>)
    requires Linked(src, cs) && Holds(cs, vs) && j < |cs| && chain == cs[j] && n < |vs[j]|
    requires src.totalLen == total + |Flatten(vs[j := vs[j][n..]])|
    requires dst != src && Stored(dst, csd, vsd) && SlotAt(dst, csd, d) && (|csd| > 0 ==> d < |csd|) && Members(csd) !! Members(cs)
    modifies src`totalLen, chain`misalign, chain`off, dst, Members(csd)
    ensures fresh(Members(csd') - Members(csd)) && Members(cs) !! Members(csd')
    ensures old(|vsd| > 0 ==> LastFits(vsd, LastSize(csd), LastMisalign(csd)))
    ensures var r := AddAnySpec(vsd, d, vs[j][..n], old(LastSize(csd)), old(LastMisalign(csd)));
      && (halted <==> r.Halts?)
      && (!halted ==>
            && Stored(src, cs, vs[j := vs[j][n..]])
            && Linked(dst, csd') && Holds(csd', r.views) && SlotAt(dst, csd', r.lwd)
            && dst.totalLen == |Flatten(vsd)| + n)
  {
    assert Stores(chain, vs[j]);
    assert chain in Members(cs);
    SubSlice(chain.buffer, chain.misalign, chain.misalign + chain.off, 0, n);
    var data := chain.buffer[chain.misalign..chain.misalign + n];
    assert data == vs[j][..n];
    halted, csd' := AddBeside(dst, csd, vsd, d, src, cs, vs, data);
    if !halted {
      DropAt(chain, n, cs, vs, j);
      src.totalLen := src.totalLen - total;
    }
  }

  /** The last chunk then has `size` bytes of memory and stores its piece from `misalign` on. */
  ghost predicate SpecFits(vsd: seq<seq<byte>>, front: seq<seq<byte>>, size: nat, misalign: nat) {
    var vs := Moved(vsd, front);
    |vs| > 0 ==> MovedSlot(vsd, front) < |vs| && LastFits(vs, size, misalign)
  }

  /** What evbuffer_remove_buffer makes of the destination's pieces: those in `front` move whole, then `data`. */
  ghost function RemoveSpec(vsd: seq<seq<byte>>, front: seq<seq<byte>>, data: seq<byte>, size: nat, misalign: nat): AddResult
    requires SpecFits(vsd, front, size, misalign)
  {
    AddAnySpec(Moved(vsd, front), MovedSlot(vsd, front), data, size, misalign)
  }

  /** The assertion of evbuffer_chain_insert fires, when n more bytes follow the whole chunks. */
  ghost predicate RemoveHalts(vsd: seq<seq<byte>>, front: seq<seq<byte>>, n: nat, size: nat, misalign: nat) {
    var vs := Moved(vsd, front);
    if NoGap(vsd, front) then AddHalts(vs, n, size, misalign) else |vs| > 0 && !RoomFor(vs, size, misalign, n)
  }

  /** last_with_datap of the destination is on its last chunk with data in the end. */
  ghost predicate RemoveKeeps(vsd: seq<seq<byte>>, front: seq<seq<byte>>, n: nat, size: nat, misalign: nat) {
    NoGap(vsd, front) && AddKeepsSlot(Moved(vsd, front), n, size, misalign)
  }

  lemma SlotInside(vsd: seq<seq<byte>>, front: seq<seq<byte>>)
    ensures var vs := Moved(vsd, front); |vs| > 0 ==> MovedSlot(vsd, front) < |vs|
  {
    if Flatten(front) != [] {
      MovedMeans(vsd, front);
    } else {
      LastDataIsLast(vsd);
    }
  }

  lemma NoneMoved(vsd: seq<seq<byte>>, front: seq<seq<byte>>)
    requires Flatten(front) == []
    ensures NoGap(vsd, front)
  {
    LastDataIsLast(front);
    if |front| > 0 {
      NoDataIffFirstEmpty(front);
    }
  }

  lemma RemoveMeans(vsd: seq<seq<byte>>, front: seq<seq<byte>>, data: seq<byte>, size: nat, misalign: nat)
    requires SpecFits(vsd, front, size, misalign)
    ensures var r := RemoveSpec(vsd, front, data, size, misalign);
      && (r.Halts? <==> RemoveHalts(vsd, front, |data|, size, misalign))
      && (r.Adds? ==>
            && Flatten(r.views) == Flatten(vsd) + (Flatten(front) + data)
            && (LastData(r.views) == r.lwd <==> RemoveKeeps(vsd, front, |data|, size, misalign)))
  {
    var vs := Moved(vsd, front);
    Assoc(Flatten(vsd), Flatten(front), data);
    if Flatten(front) == [] {
      NoneMoved(vsd, front);
      assert Flatten(front) + data == data;
      AddAnyMeans(vs, data, size, misalign);
    } else {
      MovedMeans(vsd, front);
      if NoGap(vsd, front) {
        AddAnyMeans(vs, data, size, misalign);
      } else {
        AddBehind(vs, MovedSlot(vsd, front), data, size, misalign);
      }
    }
  }

  /** The memory that matters: of the last chunk that moves whole, or else of the destination's last one. */
  ghost predicate LastIs(chunks: seq<Chain>, size: nat, misalign: nat)
    reads Members(chunks)
  {
    size == LastSize(chunks) && misalign == LastMisalign(chunks)
  }

  lemma MovedLength(vsd: seq<seq<byte>>, front: seq<seq<byte>>)
    ensures |Flatten(Moved(vsd, front))| == |Flatten(vsd)| + |Flatten(front)|
  {
    if Flatten(front) != [] {
      MovedMeans(vsd, front);
    }
  }

  /** The last step, when whole chunks have moved: `n` bytes of chunk k are left to be moved. */
  method MoveRest(src: Evbuffer, ghost css: seq<Chain>, ghost vss: seq<seq<byte>>, ghost k: nat, chain: Chain, n: nat, datlen: nat,
                  dst: Evbuffer, ghost chunks: seq<Chain>, ghost vsd: seq<seq<byte>>)
    returns (halted: bool, ghost size: nat, ghost misalign: nat, ghost csd': seq<Chain>)
    requires k < |css| == |vss| && chain == css[k] && n < |vss[k]| && datlen == |Flatten(vss[..k])| + n
    requires Linked(src, KeptChunks(css, vss, k)) && Holds(KeptChunks(css, vss, k), Kept(vss, k)) && src.totalLen == |Flatten(vss)|
    requires dst != src && Stored(dst, chunks, Moved(vsd, vss[..k])) && SlotAt(dst, chunks, MovedSlot(vsd, vss[..k]))
    requires Members(chunks) !! Members(KeptChunks(css, vss, k)) && chain == KeptChunks(css, vss, k)[KeptAt(vss, k)]
    modifies src`totalLen, chain`misalign, chain`off, dst, Members(chunks)
    ensures old(LastIs(chunks, size, misalign)) && SpecFits(vsd, vss[..k], size, misalign)
    ensures fresh(Members(csd') - Members(chunks)) && Members(KeptChunks(css, vss, k)) !! Members(csd')
    ensures var r := RemoveSpec(vsd, vss[..k], vss[k][..n], size, misalign);
      && (halted <==> r.Halts?)
      && (!halted ==>
            && Stored(src, KeptChunks(css, vss, k), Left(vss, k, n))
            && Stored(dst, csd', r.views) && SlotAt(dst, csd', r.lwd))
  {
    SlotInside(vsd, vss[..k]);
    LeftMeans(vss, k, n);
    size, misalign := LastSize(chunks), LastMisalign(chunks);
    halted, csd' := MoveBytes(src, KeptChunks(css, vss, k), Kept(vss, k), KeptAt(vss, k), chain, n, datlen,
                              dst, chunks, Moved(vsd, vss[..k]), MovedSlot(vsd, vss[..k]));
    RemoveMeans(vsd, vss[..k], vss[k][..n], size, misalign);
    MovedLength(vsd, vss[..k]);
  }

  /** evbuffer_remove_buffer when `src` keeps some of its bytes: piece k is split behind `rest` bytes. */
  method RemovePart(src: Evbuffer, ghost css: seq<Chain>, ghost vss: seq<seq<byte>>,
                    dst: Evbuffer, ghost csd: seq<Chain>, ghost vsd: seq<seq<byte>>, datlen: nat)
    returns (halted: bool, ghost k: nat, ghost rest: nat, ghost size: nat, ghost misalign: nat, ghost csd': seq<Chain>)
    requires Rep(src, css, vss) && Rep(dst, csd, vsd)
    requires dst != src && Members(csd) !! Members(css) && datlen < |Flatten(vss)|
    modifies src, dst, Members(css), Members(csd)
    ensures k <= LastData(vss) < |css| && rest < |vss[k]| && datlen == |Flatten(vss[..k])| + rest
    ensures old(LastIs(MovedChunks(csd, vsd, css[..k], vss[..k]), size, misalign)) && SpecFits(vsd, vss[..k], size, misalign)
    ensures Members(csd') !! Members(KeptChunks(css, vss, k)) && fresh(Members(csd') - Members(csd) - Members(css))
    ensures var r := RemoveSpec(vsd, vss[..k], vss[k][..rest], size, misalign);
      && (halted <==> r.Halts?)
      && (!halted ==>
            && Stored(src, KeptChunks(css, vss, k), Left(vss, k, rest))
            && src.lastWithDataPrev == (if LastData(vss) <= k then null else css[LastData(vss) - 1])
            && Stored(dst, csd', r.views) && SlotAt(dst, csd', r.lwd))
  {
    var chain, n;
    chain, n, k := MoveFront(src, css, vss, dst, csd, vsd, datlen);
    rest := n;
    ghost var chunks := MovedChunks(csd, vsd, css[..k], vss[..k]);
    halted, size, misalign, csd' := MoveRest(src, css, vss, k, chain, n, datlen, dst, chunks, vsd);
    assert fresh(Members(csd') - Members(chunks)) && Members(chunks) <= Members(csd) + Members(css);
  }

  /** Where last_with_datap of the source is, and whether that is where it should be. */
  lemma SourceSlot(src: Evbuffer, css: seq<Chain>, vss: seq<seq<byte>>, k: nat, n: nat)
    requires |css| == |vss| && k <= LastData(vss) < |css| && n < |vss[k]|
    requires Stored(src, KeptChunks(css, vss, k), Left(vss, k, n))
    requires src.lastWithDataPrev == if LastData(vss) <= k then null else css[LastData(vss) - 1]
    ensures Rep(src, KeptChunks(css, vss, k), Left(vss, k, n)) <==> !LosesSlot(vss)
  {
    var cs, d := KeptChunks(css, vss, k), LastData(vss);
    LeftMeans(vss, k, n);
    LosesIff(vss, k);
    var e := LastData(Left(vss, k, n));
    if d <= k {
      assert SlotAt(src, cs, 0);
      if SlotAt(src, cs, e) {
        SlotIsOne(src, cs, 0, e);
      }
    } else {
      assert Before(cs, e) == css[d - 1];
    }
  }

  /** And that of the destination. */
  lemma DestinationSlot(dst: Evbuffer, cs: seq<Chain>, vs: seq<seq<byte>>, d: nat)
    requires Stored(dst, cs, vs) && SlotAt(dst, cs, d)
    ensures Rep(dst, cs, vs) <==> d == LastData(vs)
  {
    if SlotAt(dst, cs, LastData(vs)) {
      SlotIsOne(dst, cs, d, LastData(vs));
    }
  }

  lemma Divided(c: seq<byte>, front: seq<byte>, part: seq<byte>, left: seq<byte>)
    requires c == front + part + left
    ensures c[..|front| + |part|] == front + part && c[|front| + |part|..] == left
  {
  }

  /** Some bytes move and some stay. */
  ghost predicate Parts(src: Evbuffer, dst: Evbuffer, vss: seq<seq<byte>>, datlen: nat) {
    dst != src && 0 < datlen < |Flatten(vss)|
  }

  /**
   * evbuffer_remove_buffer, with empty chunks anywhere. The destination's last_with_datap stays behind when an
   * empty chunk moves before data, the source's when the first chunk is empty and all data in one chunk.
   */
  method RemoveBuffer(src: Evbuffer, ghost css: seq<Chain>, ghost vss: seq<seq<byte>>,
                      dst: Evbuffer, ghost csd: seq<Chain>, ghost vsd: seq<seq<byte>>, datlen: nat)
    returns (halted: bool, r: nat, ghost k: nat, ghost rest: nat, ghost size: nat, ghost misalign: nat,
             ghost css': seq<Chain>, ghost vss': seq<seq<byte>>, ghost csd': seq<Chain>, ghost vsd': seq<seq<byte>>)
    requires Rep(src, css, vss) && Rep(dst, csd, vsd)
    requires dst != src ==> Members(csd) !! Members(css)
    modifies src, dst, Members(css), Members(csd)
    ensures dst == src ==> !halted && r == 0 && unchanged(src) && unchanged(Members(css))
    ensures Parts(src, dst, vss, datlen) ==>
      && k < |css| == |vss| && |csd| == |vsd| && rest < |vss[k]| && datlen == |Flatten(vss[..k])| + rest
      && old(LastIs(MovedChunks(csd, vsd, css[..k], vss[..k]), size, misalign)) && SpecFits(vsd, vss[..k], size, misalign)
    ensures halted <==> Parts(src, dst, vss, datlen) && RemoveHalts(vsd, vss[..k], rest, size, misalign)
    ensures dst != src && !halted ==>
      && r == Min(datlen, |Flatten(vss)|)
      && Stored(src, css', vss') && Flatten(vss') == Flatten(vss)[r..]
      && Stored(dst, csd', vsd') && Flatten(vsd') == Flatten(vsd) + Flatten(vss)[..r]
      && Members(csd') !! Members(css')
      && Members(css') <= Members(css) + Members(csd) && fresh(Members(csd') - Members(csd) - Members(css))
      && (Rep(src, css', vss') <==> !(Parts(src, dst, vss, datlen) && LosesSlot(vss)))
      && (Rep(dst, csd', vsd') <==> (Parts(src, dst, vss, datlen) ==> RemoveKeeps(vsd, vss[..k], rest, size, misalign)))
    ensures Parts(src, dst, vss, datlen) && !halted ==>
      var spec := RemoveSpec(vsd, vss[..k], vss[k][..rest], size, misalign);
      vss' == Left(vss, k, rest) && spec.Adds? && vsd' == spec.views
    ensures dst != src && !Parts(src, dst, vss, datlen) && IsTight(vss) && IsTight(vsd) ==> IsTight(vss') && IsTight(vsd')
  {
    halted, r := false, 0;
    css', vss', csd', vsd' := css, vss, csd, vsd;
    k, rest, size, misalign := 0, 0, 0, 0;
    if datlen == 0 || dst == src {
      return;
    }
    if datlen >= src.totalLen {
      r := src.totalLen;
      csd', vsd', css', vss' := AddBuffer(dst, csd, vsd, src, css, vss);
    } else {
      r := datlen;
      halted, k, rest, size, misalign, csd' := RemovePart(src, css, vss, dst, csd, vsd, datlen);
      RemoveMeans(vsd, vss[..k], vss[k][..rest], size, misalign);
      if !halted {
        css', vss' := KeptChunks(css, vss, k), Left(vss, k, rest);
        ghost var spec := RemoveSpec(vsd, vss[..k], vss[k][..rest], size, misalign);
        vsd' := spec.views;
        LeftMeans(vss, k, rest);
        Divided(Flatten(vss), Flatten(vss[..k]), vss[k][..rest], Flatten(vss'));
        SourceSlot(src, css, vss, k, rest);
        DestinationSlot(dst, csd', vsd', spec.lwd);
      }
    }
  }

  lemma TightParts(vsd: seq<seq<byte>>, vss: seq<seq<byte>>, k: nat, data: seq<byte>, size: nat, misalign: nat)
    requires IsTight(vsd) && IsTight(vss) && k < |vss| && vss[k] != [] && SpecFits(vsd, vss[..k], size, misalign)
    ensures var r := RemoveSpec(vsd, vss[..k], data, size, misalign); r.Adds? && IsTight(r.views)
    ensures RemoveKeeps(vsd, vss[..k], |data|, size, misalign) && !RemoveHalts(vsd, vss[..k], |data|, size, misalign)
    ensures !LosesSlot(vss)
  {
    if |vsd| > 0 {
      LastDataIs(vsd, |vsd| - 1);
    }
    MovedDense(vsd, vss[..k]);
    SlotInside(vsd, vss[..k]);
    var vs := Moved(vsd, vss[..k]);
    if Flatten(vss[..k]) != [] {
      MovedMeans(vsd, vss[..k]);
    }
    AddAnyMeans(vs, data, size, misalign);
    assert vss[0] != [];
  }

  /** Tight buffers stay so, and nothing can go wrong with them. */
  method RemoveTight(src: Evbuffer, ghost css: seq<Chain>, ghost vss: seq<seq<byte>>,
                     dst: Evbuffer, ghost csd: seq<Chain>, ghost vsd: seq<seq<byte>>, datlen: nat)
    returns (r: nat,
             ghost css': seq<Chain>, ghost vss': seq<seq<byte>>, ghost csd': seq<Chain>, ghost vsd': seq<seq<byte>>)
    requires Rep(src, css, vss) && IsTight(vss) && Rep(dst, csd, vsd) && IsTight(vsd)
    requires dst != src && Members(csd) !! Members(css)
    modifies src, dst, Members(css), Members(csd)
    ensures r == Min(datlen, |Flatten(vss)|)
    ensures Rep(src, css', vss') && IsTight(vss') && Rep(dst, csd', vsd') && IsTight(vsd')
    ensures Members(csd') !! Members(css')
    ensures Members(css') <= Members(css) + Members(csd) && fresh(Members(csd') - Members(csd) - Members(css))
    ensures Flatten(vsd') == Flatten(vsd) + Flatten(vss)[..r] && Flatten(vss') == Flatten(vss)[r..]
  {
    var halted;
    ghost var k, rest, size, misalign;
    halted, r, k, rest, size, misalign, css', vss', csd', vsd' := RemoveBuffer(src, css, vss, dst, csd, vsd, datlen);
    if Parts(src, dst, vss, datlen) {
      TightParts(vsd, vss, k, vss[k][..rest], size, misalign);
      LeftMeans(vss, k, rest);
    }
  }
}
