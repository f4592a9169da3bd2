/** Handing out writable space at the end of an evbuffer, and committing what was written there. */
module EvbufferReserve {
  import opened Bytes
  import opened Chains
  import opened Lists
  import opened EvbufferAppend
  import opened EvbufferDrain
  import opened EvbufferMove

  /** A piece of a chunk's memory: the iovec whose base is `chain->buffer + base`. */
  datatype Iovec = Iovec(chain: Chain, base: nat, len: nat)

  function Sum(s: seq<nat>): nat {
    if s == [] then 0 else Sum(s[..|s| - 1]) + s[|s| - 1]
  }

  lemma SumAppend(s: seq<nat>, x: nat)
    ensures Sum(s + [x]) == Sum(s) + x
  {
    assert (s + [x])[..|s|] == s;
  }

  /** The chunks from number s on have the room `room`. */
  ghost predicate RoomAt(cs: seq<Chain>, s: nat, room: seq<nat>)
    reads Members(cs)`misalign, Members(cs)`off, Members(cs)`buffer
  {
    s + |room| <= |cs| && forall t {:trigger room[t]} :: 0 <= t < |room| ==> cs[s + t].SpaceLen() == room[t]
  }

  ghost predicate Positive(room: seq<nat>) {
    forall t :: 0 <= t < |room| ==> room[t] > 0
  }

  /** The room in the next chunk behind the data; an empty chunk is realigned first. */
  method SpaceIn(chain: Chain, ghost cs: seq<Chain>, ghost vs: seq<seq<byte>>, ghost s: nat, ghost room: seq<nat>)
    returns (space: nat)
    requires Holds(cs, vs) && Distinct(cs) && RoomAt(cs, s, room) && s + |room| < |cs| && chain == cs[s + |room|]
    modifies chain`misalign
    ensures Holds(cs, vs) && RoomAt(cs, s, room + [space]) && Sum(room + [space]) == Sum(room) + space
    ensures space == chain.SpaceLen() && (vs[s + |room|] == [] ==> space > 0)
  {
    ghost var i := s + |room|;
    assert Stores(chain, vs[i]);
    Alone(cs, i);
    if chain.off != 0 {
      space := chain.SpaceLen();
    } else {
      chain.misalign := 0;
      assert forall j :: 0 <= j < |cs| ==> old(Stores(cs[j], vs[j])) && Stores(cs[j], vs[j]);
      space := |chain.buffer|;
    }
    SumAppend(room, space);
  }

  /** The loop of _evbuffer_expand_fast over the chunks behind the last one with data, number d. */
  method CountSpares(buf: Evbuffer, ghost cs: seq<Chain>, ghost vs: seq<seq<byte>>, ghost d: nat,
                     datlen: nat, n: nat, avail0: nat, used0: nat, head: Chain?, ghost s: nat, ghost room0: seq<nat>)
    returns (avail: nat, used: nat, ghost room: seq<nat>)
    requires Linked(buf, cs) && Holds(cs, vs) && d < |cs|
    requires RoomAt(cs, s, room0) && avail0 == Sum(room0) && used0 == |room0| <= n && s + used0 == d + 1
    requires Positive(room0) && forall i :: d < i < |vs| ==> vs[i] == []
    requires head == Nth(cs, d + 1)
    modifies Members(cs)`misalign
    ensures Linked(buf, cs) && Holds(cs, vs) && cs[d].misalign == old(cs[d].misalign)
    ensures RoomAt(cs, s, room) && Positive(room) && avail == Sum(room) && used == |room| <= n
    ensures avail < datlen ==> used == n || s + used == |cs|
  {
    var chain := head;
    avail, used, room := avail0, used0, room0;
    ghost var m := cs[d].misalign;
    while avail < datlen && used < n && chain != null
      invariant Linked(buf, cs) && Holds(cs, vs) && cs[d].misalign == m
      invariant d < s + used <= |cs| && chain == Nth(cs, s + used)
      invariant RoomAt(cs, s, room) && Positive(room) && avail == Sum(room) && used == |room| <= n
      decreases |cs| - s - used
    {
      Alone(cs, s + used);
      var space := SpaceIn(chain, cs, vs, s, room);
      room := room + [space];
      avail, used := avail + space, used + 1;
      chain := chain.next;
    }
  }

  /** The counting loop as a whole: `used` chunks have `avail` bytes of room. */
  method CountSpace(buf: Evbuffer, ghost cs: seq<Chain>, ghost vs: seq<seq<byte>>, ghost d: nat, datlen: nat, n: nat)
    returns (avail: nat, used: nat, ghost s: nat, ghost room: seq<nat>)
    requires Linked(buf, cs) && Holds(cs, vs) && SlotAt(buf, cs, d) && d < |cs| && n >= 2
    requires forall i :: d < i < |vs| ==> vs[i] == []
    modifies Members(cs)`misalign
    ensures Linked(buf, cs) && Holds(cs, vs)
    ensures s == (if cs[d].SpaceLen() == 0 then d + 1 else d) && (vs[d] == [] ==> s == d)
    ensures RoomAt(cs, s, room) && Positive(room) && avail == Sum(room) && used == |room| <= n
    ensures avail < datlen ==> used == n || s + used == |cs|
  {
    LastWithDataIsNth(buf, cs, d);
    var chain := LastWithData(buf);
    var space := SpaceIn(chain, cs, vs, d, []);
    assert [] + [space] == [space] && RoomAt(cs, d + 1, []);
    s, room := if space > 0 then d else d + 1, if space > 0 then [space] else [];
    used := if space > 0 then 1 else 0;
    avail, used, room := CountSpares(buf, cs, vs, d, datlen, n, space, used, chain.next, s, room);
  }

  lemma {:induction false} SumFirst(s: seq<nat>)
    requires |s| > 0
    ensures s[0] <= Sum(s)
  {
    if |s| > 1 {
      SumFirst(s[..|s| - 1]);
    }
  }

  /** `slot = tmp; buf->last = tmp`, the slot being the one behind chunk number k - 1. */
  method PutSpare(buf: Evbuffer, ghost cs: seq<Chain>, ghost vs: seq<seq<byte>>, ghost k: nat, prev: Chain?, size: nat)
    returns (tmp: Chain)
    requires Rep(buf, cs, vs) && k <= |cs| && prev == Before(cs, k)
    requires k == 0 ==> LastData(vs) == 0
    requires LastData(vs) <= k && forall i :: k <= i < |vs| ==> vs[i] == []
    requires k <= LastData(vs) ==> k == 0
    modifies buf`first, buf`last, buf`totalLen, Members(cs)`next
    ensures fresh(tmp) && tmp.off == 0 && tmp.misalign == 0 && size <= |tmp.buffer|
    ensures Rep(buf, cs[..k] + [tmp], vs[..k] + [[]])
    ensures Flatten(vs[..k] + [[]]) == Flatten(vs) && LastData(vs[..k] + [[]]) == LastData(vs)
  {
    tmp := ChainNew(size);
    assert Stores(tmp, []);
    PutSpareMeans(vs, k);
    assert Before(cs[..k] + [tmp], LastData(vs)) == Before(cs, LastData(vs));
    PutAt(buf, cs, vs, k, prev, tmp, []);
  }

  lemma PutSpareMeans(vs: seq<seq<byte>>, k: nat)
    requires k <= |vs| && LastData(vs) <= k && (k <= LastData(vs) ==> k == 0)
    requires forall i :: k <= i < |vs| ==> vs[i] == []
    ensures Flatten(vs[..k] + [[]]) == Flatten(vs) && LastData(vs[..k] + [[]]) == LastData(vs)
  {
    FlattenCut(vs, k);
    FlattenAppend(vs[..k], []);
    assert Flatten(vs[..k]) + [] == Flatten(vs[..k]);
    LastDataIsLast(vs);
    var vs', d := vs[..k] + [[]], LastData(vs);
    assert forall i :: 0 <= i < k ==> vs'[i] == vs[i];
    assert vs'[k] == [];
    LastDataIs(vs', d);
  }

  /** What _evbuffer_expand_fast promises: the first chunks with room, at most n of them, have `datlen` bytes. */
  ghost predicate Roomy(cs: seq<Chain>, vs: seq<seq<byte>>, s: nat, room: seq<nat>, datlen: nat, n: nat)
    reads Members(cs)`misalign, Members(cs)`off, Members(cs)`buffer
  {
    && |cs| == |vs| > 0
    && s == (if cs[LastData(vs)].SpaceLen() == 0 then LastData(vs) + 1 else LastData(vs))
    && RoomAt(cs, s, room) && Positive(room) && datlen <= Sum(room) && |room| <= n
  }

  lemma RoomAtMore(cs: seq<Chain>, s: nat, room: seq<nat>, tmp: Chain)
    requires RoomAt(cs, s, room) && s + |room| == |cs|
    ensures RoomAt(cs + [tmp], s, room + [tmp.SpaceLen()])
  {
    var all, more := cs + [tmp], room + [tmp.SpaceLen()];
    forall t {:trigger more[t]} | 0 <= t < |more|
      ensures all[s + t].SpaceLen() == more[t]
    {
      if t < |room| {
        assert cs[s + t].SpaceLen() == room[t];
      }
    }
  }

  /** Room in one chunk more. */
  lemma RoomMore(cs: seq<Chain>, vs: seq<seq<byte>>, s: nat, room: seq<nat>, tmp: Chain, avail: nat, datlen: nat, n: nat)
    requires Roomy(cs, vs, s, room, avail, n) && s + |room| == |cs| && |room| < n && LastData(vs) < |vs|
    requires LastData(vs + [[]]) == LastData(vs) && datlen <= Sum(room) + tmp.SpaceLen() && tmp.SpaceLen() > 0
    ensures Roomy(cs + [tmp], vs + [[]], s, room + [tmp.SpaceLen()], datlen, n)
  {
    SumAppend(room, tmp.SpaceLen());
    RoomAtMore(cs, s, room, tmp);
    assert (cs + [tmp])[LastData(vs)] == cs[LastData(vs)];
  }

  /** Another chunk behind those that were counted. */
  method ExpandMore(buf: Evbuffer, ghost cs: seq<Chain>, ghost vs: seq<seq<byte>>, datlen: nat, n: nat,
                    avail: nat, ghost s: nat, ghost room: seq<nat>)
    returns (ghost cs': seq<Chain>, ghost vs': seq<seq<byte>>, ghost room': seq<nat>)
    requires Rep(buf, cs, vs) && |cs| > 0 && Roomy(cs, vs, s, room, avail, n)
    requires avail == Sum(room) < datlen && |room| < n && s + |room| == |cs|
    modifies buf`first, buf`last, buf`totalLen, Members(cs)`next
    ensures Rep(buf, cs', vs') && Flatten(vs') == Flatten(vs) && Roomy(cs', vs', s, room', datlen, n)
    ensures fresh(Members(cs') - Members(cs)) && KeptAll(cs, cs')
  {
    LastDataIsLast(vs);
    var tmp := PutSpare(buf, cs, vs, |cs|, buf.last, datlen - avail);
    assert cs[..|cs|] == cs && vs[..|cs|] == vs;
    RoomMore(cs, vs, s, room, tmp, avail, datlen, n);
    cs', vs', room' := cs + [tmp], vs + [[]], room + [tmp.SpaceLen()];
    MembersCut(cs, |cs|, tmp);
  }

  /** The room in a chunk that takes the place of those from number k on. */
  lemma RoomLast(cs: seq<Chain>, vs: seq<seq<byte>>, k: nat, tmp: Chain, datlen: nat, n: nat)
    requires |cs| == |vs| && n >= 1 && 0 < k <= |cs| && k == LastData(vs) + 1
    requires cs[k - 1].SpaceLen() == 0 && datlen <= tmp.SpaceLen() && tmp.SpaceLen() > 0
    requires LastData(vs[..k] + [[]]) == LastData(vs)
    ensures Roomy(cs[..k] + [tmp], vs[..k] + [[]], k, [tmp.SpaceLen()], datlen, n)
  {
    var cs' := cs[..k] + [tmp];
    assert cs'[k - 1] == cs[k - 1] && cs'[k] == tmp;
    SumAppend([], tmp.SpaceLen());
    assert [] + [tmp.SpaceLen()] == [tmp.SpaceLen()];
  }

  lemma RoomLastTwo(cs: seq<Chain>, vs: seq<seq<byte>>, k: nat, tmp: Chain, avail: nat, datlen: nat, n: nat)
    requires |cs| == |vs| && n >= 2 && 0 < k <= |cs| && k == LastData(vs) + 1
    requires cs[k - 1].SpaceLen() == avail > 0 && datlen <= avail + tmp.SpaceLen() && tmp.SpaceLen() > 0
    requires LastData(vs[..k] + [[]]) == LastData(vs)
    ensures Roomy(cs[..k] + [tmp], vs[..k] + [[]], k - 1, [avail, tmp.SpaceLen()], datlen, n)
  {
    var cs' := cs[..k] + [tmp];
    assert cs'[k - 1] == cs[k - 1] && cs'[k] == tmp;
    SumAppend([], avail);
    SumAppend([avail], tmp.SpaceLen());
    assert [] + [avail] == [avail] && [avail] + [tmp.SpaceLen()] == [avail, tmp.SpaceLen()];
  }

  /** Either way there is room for all of it. */
  lemma RoomBehind(cs: seq<Chain>, vs: seq<seq<byte>>, tmp: Chain, avail: nat, datlen: nat, n: nat)
    returns (s: nat, room: seq<nat>)
    requires |cs| == |vs| && n >= 2 && LastData(vs) < |cs|
    requires cs[LastData(vs)].SpaceLen() == avail && datlen <= avail + tmp.SpaceLen() && tmp.SpaceLen() > 0
    requires LastData(vs[..LastData(vs) + 1] + [[]]) == LastData(vs)
    ensures Roomy(cs[..LastData(vs) + 1] + [tmp], vs[..LastData(vs) + 1] + [[]], s, room, datlen, n)
  {
    var k := LastData(vs) + 1;
    if avail == 0 {
      RoomLast(cs, vs, k, tmp, datlen, n);
      s, room := k, [tmp.SpaceLen()];
    } else {
      RoomLastTwo(cs, vs, k, tmp, avail, datlen, n);
      s, room := k - 1, [avail, tmp.SpaceLen()];
    }
  }

  /** The chunk with data keeps its place; all empty ones behind it give way to one that is large enough. */
  method ExpandBehind(buf: Evbuffer, ghost cs: seq<Chain>, ghost vs: seq<seq<byte>>, datlen: nat, n: nat, chain: Chain)
    returns (ghost cs': seq<Chain>, ghost vs': seq<seq<byte>>, ghost s: nat, ghost room: seq<nat>)
    requires Rep(buf, cs, vs) && n >= 2 && LastData(vs) < |cs| && chain == cs[LastData(vs)]
    requires chain.SpaceLen() < datlen && vs[LastData(vs)] != []
    modifies buf`first, buf`last, buf`totalLen, Members(cs)`next
    ensures Rep(buf, cs', vs') && Flatten(vs') == Flatten(vs) && Roomy(cs', vs', s, room, datlen, n)
    ensures fresh(Members(cs') - Members(cs))
  {
    ghost var d := LastData(vs);
    LastDataIsLast(vs);
    var avail := chain.SpaceLen();
    var tmp := PutSpare(buf, cs, vs, d + 1, chain, datlen - avail);
    MembersCut(cs, d + 1, tmp);
    cs', vs' := cs[..d + 1] + [tmp], vs[..d + 1] + [[]];
    s, room := RoomBehind(cs, vs, tmp, avail, datlen, n);
  }

  /** No chunk has data: a single large enough chunk takes the place of all of them. */
  method ExpandEmpty(buf: Evbuffer, ghost cs: seq<Chain>, ghost vs: seq<seq<byte>>, datlen: nat, n: nat)
    returns (tmp: Chain)
    requires Rep(buf, cs, vs) && n >= 2 && |vs| > 0 && vs[LastData(vs)] == []
    modifies buf`first, buf`last, buf`totalLen, Members(cs)`next
    ensures Rep(buf, [tmp], [[]]) && Flatten([[]]) == Flatten(vs) && Roomy([tmp], [[]], 0, [tmp.SpaceLen()], datlen, n)
    ensures fresh(tmp)
  {
    LastDataIsLast(vs);
    tmp := PutSpare(buf, cs, vs, 0, null, datlen);
    assert cs[..0] + [tmp] == [tmp] && vs[..0] + [[]] == [[]];
    assert Stores([tmp][0], [[]][0]);
  }

  /** All empty chunks give way to one that is large enough. */
  method ExpandAnew(buf: Evbuffer, ghost cs: seq<Chain>, ghost vs: seq<seq<byte>>, datlen: nat, n: nat,
                    ghost s0: nat, ghost room0: seq<nat>)
    returns (ghost cs': seq<Chain>, ghost vs': seq<seq<byte>>, ghost s: nat, ghost room: seq<nat>)
    requires Rep(buf, cs, vs) && n >= 2 && Roomy(cs, vs, s0, room0, Sum(room0), n)
    requires Sum(room0) < datlen && |room0| > 0
    modifies buf`first, buf`last, buf`totalLen, Members(cs)`next
    ensures Rep(buf, cs', vs') && Flatten(vs') == Flatten(vs) && Roomy(cs', vs', s, room, datlen, n)
    ensures fresh(Members(cs') - Members(cs)) && (Flatten(vs) == [] ==> s == 0)
  {
    ghost var d := LastData(vs);
    LastDataIsLast(vs);
    NoDataIffFirstEmpty(vs);
    LastWithDataIsNth(buf, cs, d);
    var chain := LastWithData(buf);
    assert Stores(chain, vs[d]);
    if chain.off == 0 {
      var tmp := ExpandEmpty(buf, cs, vs, datlen, n);
      cs', vs', s, room := [tmp], [[]], 0, [tmp.SpaceLen()];
    } else {
      SumFirst(room0);
      assert chain.SpaceLen() > 0 ==> chain.SpaceLen() == room0[0];
      cs', vs', s, room := ExpandBehind(buf, cs, vs, datlen, n, chain);
    }
  }

  /** The chunks keep their places, and there may be one more behind them. */
  ghost predicate KeptAll(cs: seq<Chain>, cs': seq<Chain>) {
    cs' == cs || (|cs'| == |cs| + 1 && cs'[..|cs|] == cs)
  }

  /** _evbuffer_expand_fast. */
  method ExpandFast(buf: Evbuffer, ghost cs: seq<Chain>, ghost vs: seq<seq<byte>>, datlen: nat, n: nat)
    returns (ghost cs': seq<Chain>, ghost vs': seq<seq<byte>>, ghost s: nat, ghost room: seq<nat>)
    requires Rep(buf, cs, vs) && n >= 2
    modifies buf`first, buf`last, buf`lastWithDataPrev, buf`totalLen, Members(cs)`next, Members(cs)`misalign
    ensures Rep(buf, cs', vs') && Flatten(vs') == Flatten(vs) && Roomy(cs', vs', s, room, datlen, n)
    ensures fresh(Members(cs') - Members(cs)) && (|cs| < n ==> KeptAll(cs, cs')) && (Flatten(vs) == [] ==> s == 0)
  {
    if buf.last == null {
      var chain := FirstChain(buf, datlen);
      cs', vs', s, room := [chain], [[]], 0, [|chain.buffer|];
      assert Stores(chain, [[]][0]);
      return;
    }
    var avail, used;
    LastDataIsLast(vs);
    NoDataIffFirstEmpty(vs);
    avail, used, s, room := CountSpace(buf, cs, vs, LastData(vs), datlen, n);
    cs', vs' := cs, vs;
    if avail >= datlen {
      return;
    }
    if used < n {
      cs', vs', room := ExpandMore(buf, cs, vs, datlen, n, avail, s, room);
    } else {
      cs', vs', s, room := ExpandAnew(buf, cs, vs, datlen, n, s, room);
    }
  }

  function Lens(vecs: seq<Iovec>): nat {
    if vecs == [] then 0 else Lens(vecs[..|vecs| - 1]) + vecs[|vecs| - 1].len
  }

  lemma LensAppend(vecs: seq<Iovec>, v: Iovec)
    ensures Lens(vecs + [v]) == Lens(vecs) + v.len
  {
    assert (vecs + [v])[..|vecs|] == vecs;
  }

  /** `v` is writable space: it begins right behind the stored bytes of `c` and stays in its memory. */
  ghost predicate SpaceOf(v: Iovec, c: Chain)
    reads c`misalign, c`off, c`buffer
  {
    v.chain == c && v.base == c.misalign + c.off && v.len <= c.SpaceLen()
  }

  /** The vectors are the writable space of the chunks from number s on. */
  ghost predicate VecsAt(cs: seq<Chain>, s: nat, vecs: seq<Iovec>)
    reads Members(cs)`misalign, Members(cs)`off, Members(cs)`buffer
  {
    s + |vecs| <= |cs| && forall i {:trigger vecs[i]} :: 0 <= i < |vecs| ==> SpaceOf(vecs[i], cs[s + i])
  }

  /** As long as the room seen so far is not enough, there is another chunk with room. */
  lemma MoreRoom(room: seq<nat>, k: nat, want: nat)
    requires k <= |room| && Sum(room[..k]) < want <= Sum(room)
    ensures k < |room| && Sum(room[..k + 1]) == Sum(room[..k]) + room[k]
  {
    assert room[..|room|] == room;
    assert k < |room|;
    var front := room[..k];
    assert room[..k + 1] == front + [room[k]];
    SumAppend(front, room[k]);
  }

  lemma VecsMore(cs: seq<Chain>, s: nat, vecs: seq<Iovec>, v: Iovec)
    requires VecsAt(cs, s, vecs) && s + |vecs| < |cs| && SpaceOf(v, cs[s + |vecs|])
    ensures VecsAt(cs, s, vecs + [v]) && Lens(vecs + [v]) == Lens(vecs) + v.len
  {
    var all, k := vecs + [v], s + |vecs|;
    assert SpaceOf(v, cs[k]);
    forall i {:trigger all[i]} | 0 <= i < |all|
      ensures SpaceOf(all[i], cs[s + i])
    {
      if i < |vecs| {
        assert SpaceOf(vecs[i], cs[s + i]) && all[i] == vecs[i];
      } else {
        assert all[i] == v && s + i == k;
      }
    }
    LensAppend(vecs, v);
  }

  /** No vector is empty. */
  ghost predicate AllRoomy(vecs: seq<Iovec>) {
    forall i :: 0 <= i < |vecs| ==> vecs[i].len > 0
  }

  /** What the filling loop is about to do with `soFar` bytes in `vecs`. */
  ghost predicate Filling(cs: seq<Chain>, s: nat, room: seq<nat>, vecs: seq<Iovec>, soFar: nat, howmuch: nat, exact: bool)
    reads Members(cs)`misalign, Members(cs)`off, Members(cs)`buffer
  {
    && |vecs| <= |room| && soFar == Lens(vecs) && VecsAt(cs, s, vecs) && AllRoomy(vecs)
    && (if soFar < howmuch then soFar == Sum(room[..|vecs|]) else !exact || soFar == howmuch)
  }

  /** The next vector. */
  method NextVec(ghost cs: seq<Chain>, ghost s: nat, ghost room: seq<nat>, ghost vecs: seq<Iovec>,
                 chain: Chain?, soFar: nat, howmuch: nat, exact: bool)
    returns (v: Iovec)
    requires RoomAt(cs, s, room) && Positive(room) && soFar < howmuch <= Sum(room) && chain == Nth(cs, s + |vecs|)
    requires Filling(cs, s, room, vecs, soFar, howmuch, exact)
    ensures chain != null && s + |vecs| < |cs| && Filling(cs, s, room, vecs + [v], soFar + v.len, howmuch, exact)
  {
    ghost var k := |vecs|;
    MoreRoom(room, k, howmuch);
    assert cs[s + k].SpaceLen() == room[k];
    var avail := chain.SpaceLen();
    if avail > howmuch - soFar && exact {
      avail := howmuch - soFar;
    }
    v := Iovec(chain, chain.misalign + chain.off, avail);
    VecsMore(cs, s, vecs, v);
  }

  /** The filling loop of _evbuffer_read_setup_vecs. */
  method FillVecs(ghost cs: seq<Chain>, head: Chain?, howmuch: nat, n: nat, exact: bool, ghost s: nat, ghost room: seq<nat>)
    returns (vecs: seq<Iovec>)
    requires Chained(cs) && RoomAt(cs, s, room) && Positive(room) && howmuch <= Sum(room) && |room| <= n && head == Nth(cs, s)
    ensures VecsAt(cs, s, vecs) && |vecs| <= n && AllRoomy(vecs)
    ensures howmuch <= Lens(vecs) && (exact ==> howmuch == Lens(vecs))
  {
    var chain := head;
    vecs := [];
    var soFar: nat := 0;
    while |vecs| < n && soFar < howmuch
      invariant chain == Nth(cs, s + |vecs|) && Filling(cs, s, room, vecs, soFar, howmuch, exact)
      decreases n - |vecs|
    {
      var v := NextVec(cs, s, room, vecs, chain, soFar, howmuch, exact);
      vecs := vecs + [v];
      soFar := soFar + v.len;
      chain := chain.next;
    }
    assert room[..|room|] == room;
  }

  /** _evbuffer_read_setup_vecs. */
  method ReadSetupVecs(buf: Evbuffer, ghost cs: seq<Chain>, ghost vs: seq<seq<byte>>, howmuch: nat, n: nat, exact: bool,
                       ghost s: nat, ghost room: seq<nat>)
    returns (vecs: seq<Iovec>)
    requires Rep(buf, cs, vs) && Roomy(cs, vs, s, room, howmuch, n)
    ensures VecsAt(cs, s, vecs) && |vecs| <= n && AllRoomy(vecs)
    ensures howmuch <= Lens(vecs) && (exact ==> howmuch == Lens(vecs))
  {
    LastDataIsLast(vs);
    LastWithDataIsNth(buf, cs, LastData(vs));
    var chain := LastWithData(buf);
    if chain.SpaceLen() == 0 {
      chain := chain.next;
    }
    vecs := FillVecs(cs, chain, howmuch, n, exact, s, room);
  }

  /** The bytes in the memory that `v` spans. */
  ghost function WrittenIn(v: Iovec): seq<byte>
    reads v.chain`buffer
  {
    if v.base + v.len <= |v.chain.buffer| then v.chain.buffer[v.base..v.base + v.len] else []
  }

  /** What the holder of a reservation does: bytes stored in a vector are not bytes of the buffer yet. */
  method WriteInto(ghost cs: seq<Chain>, ghost vs: seq<seq<byte>>, ghost s: nat, vecs: seq<Iovec>, i: nat, data: seq<byte>)
    requires Holds(cs, vs) && Distinct(cs) && VecsAt(cs, s, vecs) && i < |vecs| && |data| <= vecs[i].len
    modifies vecs[i].chain`buffer
    ensures Holds(cs, vs) && VecsAt(cs, s, vecs)
    ensures WrittenIn(vecs[i].(len := |data|)) == data
  {
    var v := vecs[i];
    assert SpaceOf(vecs[i], cs[s + i]) && Stores(cs[s + i], vs[s + i]);
    Alone(cs, s + i);
    v.chain.buffer := Overwrite(v.chain.buffer, v.base, data);
    assert v.chain.buffer[..v.base] == old(v.chain.buffer)[..v.base];
    assert Stores(v.chain, vs[s + i]);
    assert forall j :: 0 <= j < |cs| && j != s + i ==> old(Stores(cs[j], vs[j])) && Stores(cs[j], vs[j]);
    assert forall j :: 0 <= j < |vecs| ==> old(SpaceOf(vecs[j], cs[s + j])) && SpaceOf(vecs[j], cs[s + j]);
  }

  /** Piece k, behind which nothing is stored, grows. */
  lemma GrowPiece(vs: seq<seq<byte>>, k: nat, data: seq<byte>)
    requires k < |vs| && forall j :: k < j < |vs| ==> vs[j] == []
    ensures var vs' := vs[k := vs[k] + data];
      && Flatten(vs') == Flatten(vs) + data
      && LastData(vs') == if data == [] then LastData(vs) else k
  {
    var vs' := vs[k := vs[k] + data];
    FlattenUpdate(vs, k, vs[k] + data);
    FlattenSplit(vs, k);
    FlattenEmpties(vs[k + 1..]);
    Assoc(Flatten(vs[..k]), vs[k], data);
    assert Flatten(vs[..k]) + (vs[k] + data) + [] == Flatten(vs[..k]) + (vs[k] + data);
    assert Flatten(vs[..k]) + vs[k] + [] == Flatten(vs[..k]) + vs[k];
    if data == [] {
      assert vs[k] + data == vs[k];
      assert vs' == vs;
    } else {
      assert vs'[k] != [];
      LastDataIs(vs', k);
    }
  }

  /** `off += len`: the bytes written to `v` become bytes of chunk k. */
  method Adopt(ghost cs: seq<Chain>, ghost cur: seq<seq<byte>>, ghost k: nat, chain: Chain, v: Iovec)
    requires Holds(cs, cur) && Distinct(cs) && k < |cs| && chain == cs[k] && SpaceOf(v, chain)
    modifies chain`off
    ensures Holds(cs, cur[k := cur[k] + WrittenIn(v)])
  {
    assert Stores(chain, cur[k]);
    Alone(cs, k);
    ghost var cur' := cur[k := cur[k] + WrittenIn(v)];
    chain.off := chain.off + v.len;
    assert Stores(chain, cur'[k]);
    assert forall j :: 0 <= j < |cs| && j != k ==> old(Stores(cs[j], cur[j])) && Stores(cs[j], cur'[j]);
  }

  /** One step of the second pass; last_with_datap moves to this chunk if anything was written there. */
  method CommitOne(buf: Evbuffer, ghost cs: seq<Chain>, ghost cur: seq<seq<byte>>, ghost k: nat,
                   prev: Chain?, chain: Chain, v: Iovec)
    returns (ghost cur': seq<seq<byte>>)
    requires Linked(buf, cs) && Holds(cs, cur) && SlotAt(buf, cs, LastData(cur))
    requires k < |cs| && chain == cs[k] && prev == Before(cs, k) && SpaceOf(v, chain)
    requires forall j :: k < j < |cur| ==> cur[j] == []
    modifies chain`off, buf`lastWithDataPrev
    ensures Linked(buf, cs) && Holds(cs, cur') && SlotAt(buf, cs, LastData(cur'))
    ensures cur' == cur[k := cur[k] + WrittenIn(v)] && Flatten(cur') == Flatten(cur) + WrittenIn(v)
  {
    GrowPiece(cur, k, WrittenIn(v));
    cur' := cur[k := cur[k] + WrittenIn(v)];
    if v.len > 0 {
      buf.lastWithDataPrev := prev;
    }
    Adopt(cs, cur, k, chain, v);
  }

  /** The first pass of evbuffer_commit_space: every vector is the space of its chunk, and fits. */
  method CheckVecs(ghost cs: seq<Chain>, ghost s: nat, head: Chain?, vecs: seq<Iovec>) returns (ok: bool)
    requires Chained(cs) && s <= |cs| && head == Nth(cs, s)
    ensures ok <==> VecsAt(cs, s, vecs)
  {
    var chain := head;
    for i := 0 to |vecs|
      invariant VecsAt(cs, s, vecs[..i]) && chain == Nth(cs, s + i)
    {
      if chain == null {
        return false;
      }
      if vecs[i].chain != chain || vecs[i].base != chain.misalign + chain.off || vecs[i].len > chain.SpaceLen() {
        assert VecsAt(cs, s, vecs) ==> SpaceOf(vecs[i], cs[s + i]);
        return false;
      }
      assert vecs[..i + 1] == vecs[..i] + [vecs[i]];
      chain := chain.next;
    }
    assert vecs[..|vecs|] == vecs;
    return true;
  }

  /** The vectors that the second pass has not come to yet, and what is written there. */
  ghost predicate SpacesFrom(cs: seq<Chain>, s: nat, vecs: seq<Iovec>, data: seq<seq<byte>>, i: nat)
    reads Members(cs)`misalign, Members(cs)`off, Members(cs)`buffer
  {
    && s + |vecs| <= |cs| && |data| == |vecs|
    && forall t {:trigger vecs[t]} :: i <= t < |vecs| ==> SpaceOf(vecs[t], cs[s + t]) && WrittenIn(vecs[t]) == data[t]
  }

  /** The second pass has come to vector i, and to the chunk behind `prev`. */
  ghost predicate Walking(buf: Evbuffer, cs: seq<Chain>, s: nat, vecs: seq<Iovec>, data: seq<seq<byte>>, i: nat,
                          cur: seq<seq<byte>>, prev: Chain?, chain: Chain?)
    reads buf, Members(cs)
  {
    && Linked(buf, cs) && Holds(cs, cur) && SlotAt(buf, cs, LastData(cur))
    && i <= |vecs| && SpacesFrom(cs, s, vecs, data, i) && LastData(cur) <= s + i
    && chain == Nth(cs, s + i) && prev == Before(cs, s + i)
  }

  /** The loop body of the second pass. */
  method CommitStep(buf: Evbuffer, ghost cs: seq<Chain>, ghost cur: seq<seq<byte>>,
                    ghost s: nat, vecs: seq<Iovec>, ghost data: seq<seq<byte>>, i: nat, prev: Chain?, chain: Chain?)
    returns (next: Chain?, ghost cur': seq<seq<byte>>)
    requires i < |vecs| && Walking(buf, cs, s, vecs, data, i, cur, prev, chain)
    modifies buf`lastWithDataPrev, Members(cs)`off
    ensures Walking(buf, cs, s, vecs, data, i + 1, cur', chain, next)
    ensures Flatten(cur') == Flatten(cur) + data[i] && |data[i]| == vecs[i].len
    ensures s + i < |cur| && cur' == cur[s + i := cur[s + i] + data[i]]
  {
    ghost var k := s + i;
    var v := vecs[i];
    assert SpaceOf(v, cs[k]) && WrittenIn(v) == data[i] && chain in Members(cs);
    Alone(cs, k);
    LastDataIsLast(cur);
    GrowPiece(cur, k, data[i]);
    cur' := CommitOne(buf, cs, cur, k, prev, chain, v);
    next := chain.next;
    assert forall t :: i + 1 <= t < |vecs| ==> old(SpaceOf(vecs[t], cs[s + t])) && SpaceOf(vecs[t], cs[s + t]);
  }

  /** The pieces when each of those from number s on has grown by one of `data`. */
  ghost function Grew(vs: seq<seq<byte>>, s: nat, data: seq<seq<byte>>): seq<seq<byte>>
    requires s + |data| <= |vs|
  {
    seq(|vs|, i requires 0 <= i < |vs| => if s <= i < s + |data| then vs[i] + data[i - s] else vs[i])
  }

  /** The first i vectors have been committed. */
  ghost predicate Committed(vs: seq<seq<byte>>, s: nat, data: seq<seq<byte>>, i: nat, vs': seq<seq<byte>>, added: nat) {
    && i <= |data| && s + |data| <= |vs| && vs' == Grew(vs, s, data[..i])
    && Flatten(vs') == Flatten(vs) + Flatten(data[..i]) && added == |Flatten(data[..i])|
  }

  lemma GrewOn(vs: seq<seq<byte>>, s: nat, data: seq<seq<byte>>, i: nat)
    requires i < |data| && s + |data| <= |vs|
    ensures var was := Grew(vs, s, data[..i]); Grew(vs, s, data[..i + 1]) == was[s + i := was[s + i] + data[i]]
  {
    var was, now := Grew(vs, s, data[..i]), Grew(vs, s, data[..i + 1]);
    assert was[s + i] == vs[s + i];
    forall k | 0 <= k < |vs|
      ensures now[k] == was[s + i := was[s + i] + data[i]][k]
    {
      if s <= k < s + i {
        assert data[..i][k - s] == data[..i + 1][k - s];
      }
    }
  }

  lemma CommittedNone(vs: seq<seq<byte>>, s: nat, data: seq<seq<byte>>)
    requires s + |data| <= |vs|
    ensures Committed(vs, s, data, 0, vs, 0)
  {
    assert Flatten(vs) + [] == Flatten(vs) && data[..0] == [];
    assert Grew(vs, s, []) == vs;
  }

  lemma CommittedAll(vs: seq<seq<byte>>, s: nat, data: seq<seq<byte>>, vs': seq<seq<byte>>, added: nat)
    requires Committed(vs, s, data, |data|, vs', added)
    ensures Flatten(vs') == Flatten(vs) + Flatten(data) && added == |Flatten(data)| && vs' == Grew(vs, s, data)
  {
    assert data[..|data|] == data;
  }

  lemma CommittedOn(vs: seq<seq<byte>>, s: nat, data: seq<seq<byte>>, i: nat, vs': seq<seq<byte>>, vs'': seq<seq<byte>>, added: nat)
    requires Committed(vs, s, data, i, vs', added) && i < |data| && Flatten(vs'') == Flatten(vs') + data[i]
    requires vs'' == vs'[s + i := vs'[s + i] + data[i]]
    ensures Committed(vs, s, data, i + 1, vs'', added + |data[i]|)
  {
    GrewOn(vs, s, data, i);
    TakeOneMore(data, i);
    Assoc(Flatten(vs), Flatten(data[..i]), data[i]);
  }

  /** The second pass. */
  method CommitVecs(buf: Evbuffer, ghost cs: seq<Chain>, ghost vs: seq<seq<byte>>, ghost s: nat,
                    firstPrev: Chain?, head: Chain?, vecs: seq<Iovec>, ghost data: seq<seq<byte>>)
    returns (ghost vs': seq<seq<byte>>, added: nat)
    requires Linked(buf, cs) && Holds(cs, vs) && SlotAt(buf, cs, LastData(vs))
    requires SpacesFrom(cs, s, vecs, data, 0) && head == Nth(cs, s) && firstPrev == Before(cs, s) && LastData(vs) <= s
    modifies buf`lastWithDataPrev, Members(cs)`off
    ensures Linked(buf, cs) && Holds(cs, vs') && SlotAt(buf, cs, LastData(vs'))
    ensures Flatten(vs') == Flatten(vs) + Flatten(data) && added == |Flatten(data)|
    ensures s + |data| <= |vs| && vs' == Grew(vs, s, data)
  {
    var prev, chain := firstPrev, head;
    vs', added := vs, 0;
    CommittedNone(vs, s, data);
    for i := 0 to |vecs|
      invariant Walking(buf, cs, s, vecs, data, i, vs', prev, chain) && Committed(vs, s, data, i, vs', added)
    {
      var next;
      ghost var was := vs';
      next, vs' := CommitStep(buf, cs, vs', s, vecs, data, i, prev, chain);
      CommittedOn(vs, s, data, i, was, vs', added);
      added := added + vecs[i].len;
      prev, chain := chain, next;
    }
    CommittedAll(vs, s, data, vs', added);
  }

  /** The user only got, or used, the last chunk. */
  predicate InLast(buf: Evbuffer, vecs: seq<Iovec>)
    reads buf`last, buf.last
  {
    |vecs| == 1 && buf.last != null && vecs[0].chain == buf.last && vecs[0].base == buf.last.misalign + buf.last.off
  }

  /** The number of the first chunk with room that evbuffer_commit_space looks at. */
  ghost function FirstSpace(cs: seq<Chain>, vs: seq<seq<byte>>): nat
    requires LastData(vs) < |cs|
    reads cs[LastData(vs)]
  {
    if cs[LastData(vs)].SpaceLen() == 0 then LastData(vs) + 1 else LastData(vs)
  }

  /** Pieces behind the last one with data, when one of them grows. */
  lemma AdvanceToGrown(vs: seq<seq<byte>>, k: nat, data: seq<byte>)
    requires LastData(vs) <= k < |vs| && data != []
    ensures var vs' := vs[k := vs[k] + data];
      AdvanceTo(vs', LastData(vs)) == k <==> k <= LastData(vs) + 1
  {
    LastDataIsLast(vs);
    var d, vs' := LastData(vs), vs[k := vs[k] + data];
    if k <= d + 1 {
      AdvanceStops(vs', k);
    } else {
      assert vs'[d + 1] == [];
    }
  }

  lemma AdvanceStops(vs: seq<seq<byte>>, k: nat)
    requires k < |vs| && (k + 1 < |vs| ==> vs[k + 1] == [])
    ensures AdvanceTo(vs, k) == k
  {
  }

  /** evbuffer_commit_space for a single vector in the last chunk. */
  method CommitLast(buf: Evbuffer, ghost cs: seq<Chain>, ghost vs: seq<seq<byte>>, v: Iovec)
    returns (ghost vs': seq<seq<byte>>)
    requires Rep(buf, cs, vs) && |cs| > 0 && SpaceOf(v, cs[|cs| - 1])
    modifies buf`lastWithDataPrev, buf`totalLen, Members(cs)`off
    ensures Linked(buf, cs) && Holds(cs, vs') && buf.totalLen == |Flatten(vs')|
    ensures Flatten(vs') == Flatten(vs) + old(WrittenIn(v))
    ensures vs' == vs[|cs| - 1 := vs[|cs| - 1] + old(WrittenIn(v))]
    ensures Rep(buf, cs, vs') <==> v.len == 0 || |cs| - 1 <= LastData(vs) + 1
  {
    ghost var n, data := |cs| - 1, WrittenIn(v);
    LastDataIsLast(vs);
    GrowPiece(vs, n, data);
    assert cs[n] in Members(cs);
    Adopt(cs, vs, n, buf.last, v);
    vs' := vs[n := vs[n] + data];
    buf.totalLen := buf.totalLen + v.len;
    if v.len > 0 {
      AdvanceToGrown(vs, n, data);
      AdvanceLastWithData(buf, cs, vs', LastData(vs));
      if SlotAt(buf, cs, n) {
        SlotIsOne(buf, cs, n, AdvanceTo(vs', LastData(vs)));
      }
    }
  }

  /** Where evbuffer_commit_space begins: the first chunk with room, and the one before it. */
  method FindSpace(buf: Evbuffer, ghost cs: seq<Chain>, ghost vs: seq<seq<byte>>) returns (firstPrev: Chain?, chain: Chain?)
    requires Rep(buf, cs, vs) && |cs| > 0
    ensures LastData(vs) < |cs| && LastData(vs) <= FirstSpace(cs, vs) <= |cs|
    ensures chain == Nth(cs, FirstSpace(cs, vs)) && firstPrev == Before(cs, FirstSpace(cs, vs))
  {
    LastDataIsLast(vs);
    LastWithDataIsNth(buf, cs, LastData(vs));
    firstPrev, chain := buf.lastWithDataPrev, LastWithData(buf);
    if chain.SpaceLen() == 0 {
      firstPrev, chain := chain, chain.next;
    }
  }

  lemma WrittenFrom(cs: seq<Chain>, s: nat, vecs: seq<Iovec>, data: seq<seq<byte>>)
    requires VecsAt(cs, s, vecs) && |data| == |vecs| && forall t {:trigger vecs[t]} :: 0 <= t < |vecs| ==> WrittenIn(vecs[t]) == data[t]
    ensures SpacesFrom(cs, s, vecs, data, 0)
  {
  }

  /** evbuffer_commit_space for vectors that begin at the first chunk with room. */
  method CommitFrom(buf: Evbuffer, ghost cs: seq<Chain>, ghost vs: seq<seq<byte>>, vecs: seq<Iovec>, ghost data: seq<seq<byte>>)
    returns (ok: bool, ghost vs': seq<seq<byte>>)
    requires Rep(buf, cs, vs) && |cs| > 0
    requires |data| == |vecs| && forall t {:trigger vecs[t]} :: 0 <= t < |vecs| ==> WrittenIn(vecs[t]) == data[t]
    modifies buf`lastWithDataPrev, buf`totalLen, Members(cs)`off
    ensures ok <==> old(VecsAt(cs, FirstSpace(cs, vs), vecs))
    ensures !ok ==> unchanged(buf) && unchanged(Members(cs))
    ensures ok ==> Rep(buf, cs, vs') && Flatten(vs') == Flatten(vs) + Flatten(data)
    ensures ok ==> LastData(vs) < |cs| && old(FirstSpace(cs, vs)) + |data| <= |vs| && vs' == Grew(vs, old(FirstSpace(cs, vs)), data)
  {
    var firstPrev, chain := FindSpace(buf, cs, vs);
    ghost var s := FirstSpace(cs, vs);
    vs' := vs;
    ok := CheckVecs(cs, s, chain, vecs);
    if ok {
      var added;
      WrittenFrom(cs, s, vecs, data);
      vs', added := CommitVecs(buf, cs, vs, s, firstPrev, chain, vecs, data);
      buf.totalLen := buf.totalLen + added;
    }
  }

  /** What evbuffer_commit_space accepts. */
  ghost predicate Accepted(buf: Evbuffer, cs: seq<Chain>, vs: seq<seq<byte>>, vecs: seq<Iovec>)
    reads buf`last, buf.last, Members(cs)
  {
    || |vecs| == 0
    || (if InLast(buf, vecs) then vecs[0].len <= buf.last.SpaceLen()
        else LastData(vs) < |cs| && VecsAt(cs, FirstSpace(cs, vs), vecs))
  }

  /**
   * evbuffer_commit_space. Vectors that begin at the first chunk with room, as evbuffer_reserve_space gives
   * them out, are accepted and leave last_with_datap exact. A single vector in a last chunk that is neither the last one
   * with data nor its successor is accepted too, but leaves last_with_datap behind.
   */
  method CommitSpace(buf: Evbuffer, ghost cs: seq<Chain>, ghost vs: seq<seq<byte>>, vecs: seq<Iovec>, ghost data: seq<seq<byte>>)
    returns (ok: bool, ghost vs': seq<seq<byte>>)
    requires Rep(buf, cs, vs)
    requires |data| == |vecs| && forall t {:trigger vecs[t]} :: 0 <= t < |vecs| ==> WrittenIn(vecs[t]) == data[t]
    modifies buf`lastWithDataPrev, buf`totalLen, Members(cs)`off
    ensures ok <==> old(Accepted(buf, cs, vs, vecs))
    ensures !ok ==> unchanged(buf) && unchanged(Members(cs))
    ensures ok ==> Linked(buf, cs) && Holds(cs, vs') && buf.totalLen == |Flatten(vs')|
    ensures ok ==> Flatten(vs') == Flatten(vs) + Flatten(data)
    ensures ok && |vecs| > 0 && !old(InLast(buf, vecs)) ==>
      LastData(vs) < |cs| && old(FirstSpace(cs, vs)) + |data| <= |vs| && vs' == Grew(vs, old(FirstSpace(cs, vs)), data)
    ensures ok && old(InLast(buf, vecs)) ==> |vs| > 0 && vs' == vs[|vs| - 1 := vs[|vs| - 1] + data[0]]
    ensures ok ==> (Rep(buf, cs, vs') <==>
      !(old(InLast(buf, vecs)) && vecs[0].len > 0 && |cs| - 1 > LastData(vs) + 1))
    ensures LastData(vs) < |cs| && old(VecsAt(cs, FirstSpace(cs, vs), vecs)) ==> ok && Rep(buf, cs, vs')
  {
    vs' := vs;
    if |vecs| == 0 {
      ok := true;
      assert Flatten(vs) + [] == Flatten(vs);
    } else if InLast(buf, vecs) {
      assert Stores(buf.last, vs[|vs| - 1]);
      if vecs[0].len > buf.last.SpaceLen() {
        ok := false;
      } else {
        ReservedInLast(cs, vs, vecs);
        vs' := CommitLast(buf, cs, vs, vecs[0]);
        ok := true;
        FlattenOne(data[0]);
      }
    } else if buf.last == null {
      ok := false;
    } else {
      ok, vs' := CommitFrom(buf, cs, vs, vecs, data);
    }
  }

  lemma ReservedInLast(cs: seq<Chain>, vs: seq<seq<byte>>, vecs: seq<Iovec>)
    requires Distinct(cs) && |cs| > 0 && LastData(vs) < |cs| && |vecs| == 1 && vecs[0].chain == cs[|cs| - 1]
    ensures VecsAt(cs, FirstSpace(cs, vs), vecs) ==> |cs| - 1 <= LastData(vs) + 1
  {
    Alone(cs, |cs| - 1);
    assert VecsAt(cs, FirstSpace(cs, vs), vecs) ==> SpaceOf(vecs[0], cs[FirstSpace(cs, vs) + 0]);
  }

  /** evbuffer_reserve_space for two or more vectors. */
  method ReserveSpace(buf: Evbuffer, ghost cs: seq<Chain>, ghost vs: seq<seq<byte>>, size: nat, n: nat)
    returns (vecs: seq<Iovec>, ghost cs': seq<Chain>, ghost vs': seq<seq<byte>>)
    requires Rep(buf, cs, vs) && n >= 2
    modifies buf, Members(cs)`next, Members(cs)`misalign
    ensures Rep(buf, cs', vs') && Flatten(vs') == Flatten(vs) && fresh(Members(cs') - Members(cs))
    ensures |cs| < n ==> KeptAll(cs, cs')
    ensures |vecs| <= n && size <= Lens(vecs) && AllRoomy(vecs)
    ensures LastData(vs') < |cs'| && VecsAt(cs', FirstSpace(cs', vs'), vecs)
    ensures Flatten(vs) == [] ==> FirstSpace(cs', vs') == 0
  {
    ghost var s, room;
    cs', vs', s, room := ExpandFast(buf, cs, vs, size, n);
    vecs := ReadSetupVecs(buf, cs', vs', size, n, false, s, room);
  }
}
