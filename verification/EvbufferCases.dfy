/** Concrete runs, from a new evbuffer on, on which something goes wrong. */
module EvbufferCases {
  import opened Bytes
  import opened Chains
  import opened Lists
  import opened EvbufferAppend
  import opened EvbufferDrain
  import opened EvbufferExpand
  import opened EvbufferMove
  import opened EvbufferRemove
  import opened EvbufferReserve

  lemma LensShort(vecs: seq<Iovec>)
    requires |vecs| <= 2
    ensures Lens(vecs) == (if |vecs| > 0 then vecs[0].len else 0) + (if |vecs| > 1 then vecs[1].len else 0)
  {
    if |vecs| == 1 {
      assert vecs == [] + [vecs[0]];
      LensAppend([], vecs[0]);
    } else if |vecs| == 2 {
      assert vecs == [vecs[0]] + [vecs[1]] && [vecs[0]] == [] + [vecs[0]];
      LensAppend([], vecs[0]);
      LensAppend([vecs[0]], vecs[1]);
    }
  }

  lemma KeptOne(c: Chain, cs': seq<Chain>)
    requires KeptAll([c], cs')
    ensures 1 <= |cs'| <= 2 && cs'[0] == c
  {
    assert |cs'| == 2 ==> cs'[0] == cs'[..1][0];
  }

  /** Room for more than the first chunk's memory needs another chunk, and room in it. */
  lemma SecondChunk(c: Chain, cs': seq<Chain>, s: nat, vecs: seq<Iovec>)
    requires KeptAll([c], cs') && VecsAt(cs', s, vecs) && |c.buffer| + 1 < Lens(vecs)
    ensures |cs'| == 2 && cs'[0] == c && cs'[1].SpaceLen() > 1
  {
    KeptOne(c, cs');
    LensShort(vecs);
    assert |vecs| > 0 ==> SpaceOf(vecs[0], cs'[s]);
    assert |vecs| > 1 ==> SpaceOf(vecs[1], cs'[s + 1]);
  }

  /** Two reservations on a new buffer, each of them more than there is room for, leave two empty chunks. */
  method ReserveTwice() returns (buf: Evbuffer, ghost cs: seq<Chain>, ghost vs: seq<seq<byte>>)
    ensures fresh(buf) && fresh(Members(cs)) && Rep(buf, cs, vs) && vs == [[], []] && LastData(vs) == 0 && Flatten(vs) == []
    ensures buf.last != null && buf.last.misalign + 1 < |buf.last.buffer|
  {
    buf := new Evbuffer();
    ghost var one, vs1;
    var vecs;
    vecs, one, vs1 := ReserveSpace(buf, [], [], 1, 2);
    var first := buf.first;
    assert one == [first];
    vecs, cs, vs := ReserveSpace(buf, one, vs1, |first.buffer| + 2, 2);
    SecondChunk(first, cs, FirstSpace(cs, vs), vecs);
    NoneStored(vs);
    assert Stores(cs[1], vs[1]);
  }

  lemma NoneStored(vs: seq<seq<byte>>)
    requires |vs| == 2 && Flatten(vs) == []
    ensures vs == [[], []] && LastData(vs) == 0
  {
    NoDataIffFirstEmpty(vs);
    LastDataIsLast(vs);
  }

  lemma KeptTwo(cs: seq<Chain>, cs': seq<Chain>)
    requires |cs| == 2 && KeptAll(cs, cs')
    ensures 2 <= |cs'| <= 3 && cs'[0] == cs[0] && cs'[1] == cs[1]
  {
    assert |cs'| == 3 ==> cs'[0] == cs'[..2][0] && cs'[1] == cs'[..2][1];
  }

  /** Room for more than two chunks have needs a third one, and a vector in each. */
  lemma ThirdChunk(cs: seq<Chain>, cs': seq<Chain>, s: nat, vecs: seq<Iovec>, extra: nat)
    requires |cs| == 2 && KeptAll(cs, cs') && VecsAt(cs', s, vecs) && |vecs| <= 3 && s == 0
    requires |cs[0].buffer| + |cs[1].buffer| + extra < Lens(vecs)
    ensures |cs'| == |vecs| == 3 && cs'[0] == cs[0] && cs'[1] == cs[1] && vecs[2].len > extra
    ensures forall t {:trigger vecs[t]} :: 0 <= t < 3 ==> SpaceOf(vecs[t], cs'[t])
  {
    KeptTwo(cs, cs');
    assert forall t :: 0 <= t < |vecs| ==> SpaceOf(vecs[t], cs'[s + t]);
    if |vecs| <= 2 {
      LensShort(vecs);
    } else {
      var two := [vecs[0], vecs[1]];
      assert vecs == two + [vecs[2]];
      LensAppend(two, vecs[2]);
      LensShort(two);
    }
  }

  /** A third reservation, for more than all three chunks had to be large: three vectors. */
  method ReserveThrice(extra: nat) returns (buf: Evbuffer, vecs: seq<Iovec>, second: Chain, ghost cs: seq<Chain>, ghost vs: seq<seq<byte>>)
    ensures fresh(buf) && fresh(Members(cs)) && Rep(buf, cs, vs) && |cs| == |vecs| == 3 && vs == [[], [], []] && Flatten(vs) == []
    ensures FirstSpace(cs, vs) == 0 && VecsAt(cs, 0, vecs) && vecs[2].len > extra + |second.buffer|
    ensures vecs[1].len > 0 && second == cs[1]
  {
    ghost var two, vs2;
    buf, two, vs2 := ReserveTwice();
    assert Stores(two[0], vs2[0]) && Stores(two[1], vs2[1]);
    var first := buf.first;
    second := buf.last;
    vecs, cs, vs := ReserveSpace(buf, two, vs2, |first.buffer| + |second.buffer| + extra + |second.buffer| + 1, 3);
    ThirdChunk(two, cs, FirstSpace(cs, vs), vecs, extra + |second.buffer|);
    ThreeEmpty(vs);
  }

  lemma ThreeEmpty(vs: seq<seq<byte>>)
    requires |vs| == 3 && Flatten(vs) == []
    ensures vs == [[], [], []] && LastData(vs) == 0
  {
    NoDataIffFirstEmpty(vs);
    LastDataIsLast(vs);
  }

  /** The last of the three is committed, and nothing in the others: last_with_datap stays at the first chunk. */
  method CommitOnlyLast() returns (ok: bool, buf: Evbuffer, ghost cs: seq<Chain>, ghost vs: seq<seq<byte>>)
    ensures ok && Stored(buf, cs, vs) && |Flatten(vs)| == 1 && !Rep(buf, cs, vs)
  {
    var vecs, second;
    buf, vecs, second, cs, vs := ReserveThrice(0);
    assert SpaceOf(vecs[2], cs[0 + 2]) && Stores(cs[2], vs[2]);
    var v := vecs[2].(len := 1);
    ghost var data := WrittenIn(v);
    assert InLast(buf, [v]);
    assert |data| == 1 && Flatten(vs) == [];
    ok, vs := CommitSpace(buf, cs, vs, [v], [data]);
    FlattenOne(data);
  }

  /** Nothing is committed in the first of the three, one byte in the second, and all of the third, which is longer than `len`. */
  method CommitWithGap(len: nat) returns (buf: Evbuffer, second: Chain, ghost cs: seq<Chain>, ghost vs: seq<seq<byte>>)
    requires len > 0
    ensures fresh(buf) && fresh(Members(cs)) && Rep(buf, cs, vs) && |cs| == |vs| == 3 && second == cs[1]
    ensures vs[0] == [] && |vs[1]| == 1 && |vs[2]| > |second.buffer| + len
  {
    var given;
    buf, given, second, cs, vs := ReserveThrice(len);
    var vecs := [given[0].(len := 0), given[1].(len := 1), given[2]];
    ghost var data := [WrittenIn(vecs[0]), WrittenIn(vecs[1]), WrittenIn(vecs[2])];
    assert forall t {:trigger given[t]} :: 0 <= t < 3 ==> SpaceOf(given[t], cs[0 + t]);
    assert Stores(cs[0], vs[0]) && Stores(cs[1], vs[1]) && Stores(cs[2], vs[2]);
    assert VecsAt(cs, 0, vecs) && |data[0]| == 0 && |data[1]| == 1 && |data[2]| == given[2].len;
    var ok;
    ok, vs := CommitSpace(buf, cs, vs, vecs, data);
  }

  /** A byte in a new buffer. */
  method OneByte() returns (buf: Evbuffer, ghost cs: seq<Chain>, ghost vs: seq<seq<byte>>)
    ensures fresh(buf) && fresh(Members(cs)) && Rep(buf, cs, vs) && Flatten(vs) == [7] && NoSpare(vs)
  {
    buf := new Evbuffer();
    cs, vs := Add(buf, [], [], [7]);
  }

  /** Where n bytes are split: in the third chunk, behind n - 1 of its bytes. */
  lemma SplitBehindGap(vs: seq<seq<byte>>, n: nat, k: nat, rest: nat)
    requires |vs| == 3 && vs[0] == [] && |vs[1]| == 1 && 0 < n <= |vs[2]|
    requires k < 3 && rest < |vs[k]| && n == |Flatten(vs[..k])| + rest
    ensures k == 2 && rest == n - 1 && vs[..k] == [[], vs[1]] && Flatten(vs[..k]) == vs[1] && LastData(vs[..k]) == 1
    ensures |Flatten(vs)| > n
  {
    assert vs[..0] == [] && vs[..1] == [[]] && vs[..2] == [[], vs[1]];
    FlattenOne([]);
    TwoPieces([[], vs[1]]);
    FlattenSplit(vs, 2);
  }

  lemma PartsBehindGap(vs: seq<seq<byte>>, n: nat)
    requires |vs| == 3 && vs[0] == [] && |vs[1]| == 1 && 0 < n <= |vs[2]|
    ensures 0 < n < |Flatten(vs)|
  {
    assert vs[..2] == [[], vs[1]];
    TwoPieces([[], vs[1]]);
    SplitBehindGap(vs, n, 2, n - 1);
  }

  /**
   * A byte moved by evbuffer_remove_buffer out of such a buffer: the empty chunk moves before it, and
   * last_with_datap of the destination stops there.
   */
  method RemoveBehindGap() returns (halted: bool, dst: Evbuffer, ghost csd: seq<Chain>, ghost vsd: seq<seq<byte>>)
    ensures !halted && Stored(dst, csd, vsd) && |Flatten(vsd)| == 2 && !Rep(dst, csd, vsd)
  {
    ghost var css, vss, css', vss', cs0, vs0, k, rest, size, misalign;
    var src, second, r;
    dst, cs0, vs0 := OneByte();
    src, second, css, vss := CommitWithGap(1);
    PartsBehindGap(vss, 1);
    halted, r, k, rest, size, misalign, css', vss', csd, vsd := RemoveBuffer(src, css, vss, dst, cs0, vs0, 1);
    SplitBehindGap(vss, 1, k, rest);
    assert !NoGap(vs0, vss[..k]) && rest == 0;
  }

  /** And with more bytes than fit behind it, the assertion fires. */
  method RemoveHaltsBehindGap() returns (halted: bool)
    ensures halted
  {
    ghost var css, vss, css', vss', cs0, vs0, k, rest, size, misalign, csd, vsd;
    var src, dst, second, r;
    dst, cs0, vs0 := OneByte();
    src, second, css, vss := CommitWithGap(2);
    var n := |second.buffer| + 2;
    PartsBehindGap(vss, n);
    halted, r, k, rest, size, misalign, css', vss', csd, vsd := RemoveBuffer(src, css, vss, dst, cs0, vs0, n);
    SplitBehindGap(vss, n, k, rest);
    assert css[..k] == [css[0], second];
    HaltsBehindGap(cs0, vs0, css[..k], vss[..k], rest, size, misalign);
  }

  /** The last chunk that moves is too small for what follows. */
  lemma HaltsBehindGap(csd: seq<Chain>, vsd: seq<seq<byte>>, chunks: seq<Chain>, front: seq<seq<byte>>, n: nat, size: nat, misalign: nat)
    requires |csd| == |vsd| && Flatten(vsd) != [] && |chunks| == |front| == 2
    requires front[0] == [] && Flatten(front) == front[1] != [] && LastData(front) == 1
    requires SpecFits(vsd, front, size, misalign) && size < n
    ensures MovedChunks(csd, vsd, chunks, front) != [] && RemoveHalts(vsd, front, n, size, misalign)
    ensures var moved := MovedChunks(csd, vsd, chunks, front); moved[|moved| - 1] == chunks[1]
  {
    assert !NoGap(vsd, front);
    var vs := Moved(vsd, front);
    assert vs[|vs| - 1] == front[1];
  }

  /** There evbuffer_add runs into the assertion, when the data is longer than the last chunk. */
  method AddHaltsAfterReserving() returns (halted: bool)
    ensures halted
  {
    var buf;
    ghost var cs, vs;
    buf, cs, vs := ReserveTwice();
    var data := seq(|buf.last.buffer| + 1, _ => 0);
    ghost var size, misalign := |buf.last.buffer|, buf.last.misalign;
    halted, cs := AddTo(buf, cs, vs, 0, data);
    AddSpecMeans(vs, data, size, misalign);
  }

  /** And a single byte goes to the last chunk, while last_with_datap stays at the first, which is empty. */
  method AddBehindAfterReserving() returns (buf: Evbuffer, ghost cs: seq<Chain>, ghost vs: seq<seq<byte>>)
    ensures Linked(buf, cs) && Holds(cs, vs) && Flatten(vs) == [7] && buf.totalLen == 1
    ensures SlotAt(buf, cs, 0) && LastData(vs) == 1 && !Rep(buf, cs, vs)
  {
    buf, cs, vs := ReserveTwice();
    var data: seq<byte> := [7];
    ghost var size, misalign := |buf.last.buffer|, buf.last.misalign;
    assert Stores(buf.last, vs[1]);
    SpareRoom(vs, size, misalign, 1);
    AddSpecMeans(vs, data, size, misalign);
    var halted;
    halted, cs := AddTo(buf, cs, vs, 0, data);
    vs := AddSpec(vs, 0, data, size, misalign).views;
    assert vs == [[], [] + data] && [] + data == data;
    LastDataIs(vs, 1);
  }

  /** Two bytes committed in the second of the two chunks, behind the first one, which stays empty: all is well. */
  method CommitSecond() returns (buf: Evbuffer, ghost cs: seq<Chain>, ghost vs: seq<seq<byte>>)
    ensures fresh(buf) && fresh(Members(cs)) && Rep(buf, cs, vs) && |vs| == 2 && vs[0] == [] && |vs[1]| == 2
  {
    buf, cs, vs := ReserveTwice();
    assert Stores(buf.last, vs[1]);
    var v := Iovec(buf.last, buf.last.misalign + buf.last.off, 2);
    ghost var data := WrittenIn(v);
    var ok;
    ok, vs := CommitSpace(buf, cs, vs, [v], [data]);
    assert vs == [[], [] + data];
  }

  /**
   * evbuffer_remove_buffer of one of them finds the first chunk to be passed over whole, without a byte in it:
   * last_with_datap falls back to `&first`, but the list keeps that empty chunk.
   */
  method RemoveLosesSlot() returns (src: Evbuffer, ghost cs: seq<Chain>, ghost vs: seq<seq<byte>>)
    ensures fresh(src) && fresh(Members(cs)) && Stored(src, cs, vs) && |vs| == 2 && vs[0] == [] && |vs[1]| == 1
    ensures SlotAt(src, cs, 0) && !Rep(src, cs, vs)
  {
    ghost var cs0, vs0, k, rest, size, misalign, csd;
    src, cs0, vs0 := CommitSecond();
    var dst := new Evbuffer();
    TwoPieces(vs0);
    var halted;
    halted, k, rest, size, misalign, csd := RemovePart(src, cs0, vs0, dst, [], [], 1);
    assert vs0[..0] == [] && vs0[..1] == [[]];
    FlattenOne([]);
    NoneMoved([], vs0[..k]);
    RemoveMeans([], vs0[..k], vs0[k][..rest], size, misalign);
    SourceSlot(src, cs0, vs0, k, rest);
    cs, vs := KeptChunks(cs0, vs0, k), Left(vs0, k, rest);
  }

  lemma TwoPieces(vs: seq<seq<byte>>)
    requires |vs| == 2 && vs[0] == [] && vs[1] != []
    ensures Flatten(vs) == vs[1] && LastData(vs) == 1
  {
    assert vs == [vs[0], vs[1]] && vs[1..] == [vs[1]];
    FlattenOne(vs[1]);
    LastDataIs(vs, 1);
  }

  /** The next evbuffer_add that does not fit in the last chunk runs into the assertion. */
  method AddHaltsAfterRemoving() returns (halted: bool)
    ensures halted
  {
    var src;
    ghost var cs, vs;
    src, cs, vs := RemoveLosesSlot();
    assert Stores(src.last, vs[1]);
    var data := seq(|src.last.buffer| + 1, _ => 0);
    ghost var part := data[..src.last.SpaceLen()];
    halted, cs := AddTo(src, cs, vs, 0, data);
    var filled := Filled(vs, part);
    assert filled[0] == [] && filled[1] != [];
  }

  method ThreeChunks() returns (buf: Evbuffer, a: Chain, b: Chain, c: Chain)
    ensures fresh({buf, a, b, c}) && a != b && b != c && a != c && a.next == b && b.next == c && c.next == null
    ensures |a.buffer| == |b.buffer| == |c.buffer| == 976 && a.misalign == b.misalign == c.misalign == 0
    ensures a.off == 970 && b.off == 0 && c.off == 0
    ensures buf.first == a && buf.last == c && buf.lastWithDataPrev == null && buf.totalLen == 970
  {
    a := new Chain(976);
    b := new Chain(976);
    c := new Chain(976);
    buf := new Evbuffer();
    a.off, a.next, b.next := 970, b, c;
    buf.first, buf.last, buf.totalLen := a, c, 970;
  }

  /** A full chunk but for six bytes, and two empty ones behind it. */
  method OneAndTwoSpares() returns (buf: Evbuffer, ghost cs: seq<Chain>, ghost vs: seq<seq<byte>>)
    ensures fresh(buf) && fresh(Members(cs)) && Rep(buf, cs, vs) && |cs| == 3 && LastData(vs) == 0
    ensures UsesNext(cs, vs, 100)
  {
    var a, b, c;
    buf, a, b, c := ThreeChunks();
    cs, vs := [a, b, c], [a.buffer[0..970], [], []];
    ThreeLinked(buf, a, b, c);
    OneAndTwoEmpty(buf, cs, vs);
  }

  lemma ThreeLinked(buf: Evbuffer, a: Chain, b: Chain, c: Chain)
    requires a != b && b != c && a != c && a.next == b && b.next == c && c.next == null
    requires buf.first == a && buf.last == c
    ensures Linked(buf, [a, b, c])
  {
  }

  lemma OneAndTwoEmpty(buf: Evbuffer, cs: seq<Chain>, vs: seq<seq<byte>>)
    requires Linked(buf, cs) && |cs| == |vs| == 3 && buf.lastWithDataPrev == null && buf.totalLen == 970
    requires forall i :: 0 <= i < 3 ==> |cs[i].buffer| == 976 && cs[i].misalign == 0
    requires cs[0].off == 970 && cs[1].off == 0 && cs[2].off == 0
    requires vs[0] == cs[0].buffer[0..970] && vs[1] == [] && vs[2] == []
    ensures Rep(buf, cs, vs) && LastData(vs) == 0 && UsesNext(cs, vs, 100)
  {
    assert Stores(cs[0], vs[0]) && Stores(cs[1], vs[1]) && Stores(cs[2], vs[2]);
    LastDataIs(vs, 0);
    FlattenCut(vs, 1);
    assert vs[..1] == [vs[0]];
    FlattenOne(vs[0]);
  }

  /** There evbuffer_commit_space rejects the vector that evbuffer_reserve_space has given out. */
  method ReservedIsRejected() returns (ok: bool)
    ensures !ok
  {
    var buf;
    ghost var cs, vs, t;
    buf, cs, vs := OneAndTwoSpares();
    var v;
    v, t, cs, vs := ReserveOne(buf, cs, vs, 100);
    ghost var data := [WrittenIn(v)];
    assert v.(len := v.len) == v;
    ok, vs := CommitSpace(buf, cs, vs, [v], data);
  }
}
