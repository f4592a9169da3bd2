/** Tagged records in an evbuffer. */
module Tagging {
  import opened Bytes
  import opened Chains
  import opened Lists
  import opened EvbufferDrain
  import opened TagCodec
  import EvbufferAppend
  import EvbufferPullup

  /** evtag_encode_int, and with 16 digits evtag_encode_int64. */
  method PutInt(buf: Evbuffer, ghost cs: seq<Chain>, ghost vs: seq<seq<byte>>, number: nat)
    returns (ghost cs': seq<Chain>, ghost vs': seq<seq<byte>>)
    requires Rep(buf, cs, vs) && NoSpare(vs) && number < WORD64
    modifies buf, Members(cs)
    ensures Rep(buf, cs', vs') && NoSpare(vs') && fresh(Members(cs') - Members(cs))
    ensures Flatten(vs') == Flatten(vs) + EncodedInt(number)
  {
    var data := new byte[9];
    WordsHaveNibbles();
    var len := EncodeInt(data, number, 16);
    EncodedIntEncodes(number);
    OneEncoding(data[..len], EncodedInt(number), number);
    cs', vs' := EvbufferAppend.Add(buf, cs, vs, data[..len]);
  }

  /** evtag_encode_tag. */
  method PutTag(buf: Evbuffer, ghost cs: seq<Chain>, ghost vs: seq<seq<byte>>, tag: nat)
    returns (bytes: nat, ghost cs': seq<Chain>, ghost vs': seq<seq<byte>>)
    requires Rep(buf, cs, vs) && NoSpare(vs) && tag < WORD32
    modifies buf, Members(cs)
    ensures Rep(buf, cs', vs') && NoSpare(vs') && fresh(Members(cs') - Members(cs))
    ensures Flatten(vs') == Flatten(vs) + EncodedTag(tag) && bytes == |EncodedTag(tag)|
  {
    var data := new byte[5];
    bytes := EncodeTagBytes(data, tag);
    cs', vs' := EvbufferAppend.Add(buf, cs, vs, data[..bytes]);
  }

  /** The bytes of a record. */
  function Record(tag: nat, payload: seq<byte>): seq<byte> {
    EncodedTag(tag) + (EncodedInt(|payload|) + payload)
  }

  /** The bytes 7 and 8 under tag 1: the tag, the length, and the payload. */
  lemma RecordExample()
    ensures Record(1, [7, 8]) == [1, 2, 7, 8]
  {
    assert Nibbles(2) == [2];
    assert EncodedInt(2) == [2];
    assert EncodedTag(1) == [1];
  }

  /** evtag_marshal. */
  method Marshal(buf: Evbuffer, ghost cs: seq<Chain>, ghost vs: seq<seq<byte>>, tag: nat, payload: seq<byte>)
    returns (ghost cs': seq<Chain>, ghost vs': seq<seq<byte>>)
    requires Rep(buf, cs, vs) && NoSpare(vs) && tag < WORD32 && |payload| < WORD32
    modifies buf, Members(cs)
    ensures Rep(buf, cs', vs') && NoSpare(vs') && fresh(Members(cs') - Members(cs))
    ensures Flatten(vs') == Flatten(vs) + Record(tag, payload)
  {
    var bytes;
    bytes, cs', vs' := PutTag(buf, cs, vs, tag);
    cs', vs' := PutInt(buf, cs', vs', |payload|);
    cs', vs' := EvbufferAppend.Add(buf, cs', vs', payload);
    Assoc(Flatten(vs), EncodedTag(tag), EncodedInt(|payload|));
    Assoc(Flatten(vs), EncodedTag(tag) + EncodedInt(|payload|), payload);
    Assoc(EncodedTag(tag), EncodedInt(|payload|), payload);
  }

  /** evbuffer_pullup, and the bytes its result points at. */
  method Front(buf: Evbuffer, ghost cs: seq<Chain>, ghost vs: seq<seq<byte>>, size: nat)
    returns (data: seq<byte>, ghost cs': seq<Chain>, ghost vs': seq<seq<byte>>)
    requires Rep(buf, cs, vs) && size <= |Flatten(vs)|
    modifies buf, Members(cs)
    ensures Rep(buf, cs', vs') && (NoSpare(vs) ==> NoSpare(vs')) && fresh(Members(cs') - Members(cs))
    ensures Flatten(vs') == Flatten(vs) && data == Flatten(vs)[..size]
  {
    var ok;
    ok, cs', vs' := EvbufferPullup.Pullup(buf, cs, vs, size);
    data := [];
    if size > 0 {
      assert Stores(cs'[0], vs'[0]);
      var chain := buf.first;
      data := chain.buffer[chain.misalign..chain.misalign + size];
      SubSlice(chain.buffer, chain.misalign, chain.misalign + chain.off, 0, size);
    }
  }

  /** decode_tag_internal. */
  method GetTag(buf: Evbuffer, ghost cs: seq<Chain>, ghost vs: seq<seq<byte>>, dodrain: bool)
    returns (count: int, tag: nat, ghost cs': seq<Chain>, ghost vs': seq<seq<byte>>)
    requires Rep(buf, cs, vs) && !LongTag(Flatten(vs))
    modifies buf, Members(cs)
    ensures Rep(buf, cs', vs') && (NoSpare(vs) ==> NoSpare(vs')) && fresh(Members(cs') - Members(cs))
    ensures match DecodedTag(Flatten(vs))
            case None => count == -1 && Flatten(vs') == Flatten(vs)
            case Some((t, n)) =>
              && count == n <= |Flatten(vs)| && tag == t % WORD32
              && Flatten(vs') == if dodrain then Flatten(vs)[n..] else Flatten(vs)
  {
    var len := buf.totalLen;
    var data, done, n;
    FiveBytes(Flatten(vs));
    data, cs', vs' := Front(buf, cs, vs, if len < 5 then len else 5);
    done, tag, n := CollectTag(data, len);
    if !done {
      return -1, tag, cs', vs';
    }
    count := n;
    if dodrain {
      cs', vs' := Drain(buf, cs', vs', n);
    }
  }

  /** decode_int_internal, and with 16 digits decode_int64_internal: the integer behind the first `offset` bytes. */
  method GetInt(buf: Evbuffer, ghost cs: seq<Chain>, ghost vs: seq<seq<byte>>, most: nat, offset: nat)
    returns (len: int, number: nat, ghost cs': seq<Chain>, ghost vs': seq<seq<byte>>)
    requires Rep(buf, cs, vs) && offset <= |Flatten(vs)|
    modifies buf, Members(cs)
    ensures Rep(buf, cs', vs') && (NoSpare(vs) ==> NoSpare(vs')) && fresh(Members(cs') - Members(cs)) && Flatten(vs') == Flatten(vs)
    ensures match DecodedInt(Flatten(vs)[offset..], most)
            case None => len == -1
            case Some((x, n)) => len == n && number == x && offset + n <= |Flatten(vs)|
  {
    ghost var c := Flatten(vs);
    cs', vs', number := cs, vs, 0;
    if buf.totalLen <= offset {
      return -1, 0, cs, vs;
    }
    var data;
    data, cs', vs' := Front(buf, cs, vs, offset + 1);
    var first: int := data[offset];
    var nibbles := first / 16 + 1;
    assert c[offset..][0] == data[offset];
    if nibbles > most || nibbles / 2 + 1 > buf.totalLen - offset {
      return -1, 0, cs', vs';
    }
    len := nibbles / 2 + 1;
    data, cs', vs' := Front(buf, cs', vs', offset + len);
    number := CollectDigits(data[offset..], nibbles);
    SameDigits(c[offset..], data[offset..], nibbles);
  }

  lemma SameDigits(s: seq<byte>, t: seq<byte>, n: nat)
    requires t <= s && n / 2 < |t|
    ensures DigitsOf(s, n) == DigitsOf(t, n)
  {
    assert forall k: nat :: k / 2 < |t| ==> NibbleAt(s, k) == NibbleAt(t, k);
  }

  /** A 32-bit number returned as an int. */
  function AsInt(u: nat): int {
    if u < 0x8000_0000 then u else u - WORD32
  }

  /** The head of a record: its tag, the length of its payload, and how many bytes the head takes. */
  datatype Head = NoTag | NoLength(tagBytes: nat) | Head(tag: nat, len: nat, bytes: nat)

  function HeadOf(c: seq<byte>): (h: Head)
    ensures h.NoLength? ==> h.tagBytes <= |c|
    ensures h.Head? ==> h.bytes <= |c|
  {
    match DecodedTag(c)
    case None => NoTag
    case Some((t, n)) =>
      match DecodedInt(c[n..], 8)
      case None => NoLength(n)
      case Some((len, m)) => Head(t % WORD32, len, n + m)
  }

  lemma HeadIs(c: seq<byte>, rest: seq<byte>, t: nat, n: nat, len: nat, m: nat)
    requires DecodedTag(c) == Some((t, n)) && rest == c[n..] && DecodedInt(rest, 8) == Some((len, m))
    ensures HeadOf(c) == Head(t % WORD32, len, n + m)
  {
  }

  /** What evtag_unmarshal_header takes out of a buffer: whatever it has read, also when it fails. */
  function AfterHeader(c: seq<byte>): seq<byte> {
    match HeadOf(c)
    case NoTag => c
    case NoLength(n) => c[n..]
    case Head(_, _, n) => c[n..]
  }

  /** The front of the buffer is a whole record. */
  predicate Whole(c: seq<byte>) {
    var h := HeadOf(c);
    h.Head? && h.len <= |c| - h.bytes
  }

  /** evtag_decode_int and evtag_decode_int64. */
  method DecodeInt(buf: Evbuffer, ghost cs: seq<Chain>, ghost vs: seq<seq<byte>>, most: nat)
    returns (r: int, number: nat, ghost cs': seq<Chain>, ghost vs': seq<seq<byte>>)
    requires Rep(buf, cs, vs)
    modifies buf, Members(cs)
    ensures Rep(buf, cs', vs') && (NoSpare(vs) ==> NoSpare(vs')) && fresh(Members(cs') - Members(cs))
    ensures match DecodedInt(Flatten(vs), most)
            case None => r == -1 && Flatten(vs') == Flatten(vs)
            case Some((x, n)) => r == 0 && number == x && n <= |Flatten(vs)| && Flatten(vs') == Flatten(vs)[n..]
  {
    var res;
    assert Flatten(vs)[0..] == Flatten(vs);
    res, number, cs', vs' := GetInt(buf, cs, vs, most, 0);
    if res != -1 {
      cs', vs' := Drain(buf, cs', vs', res);
    }
    r := if res == -1 then -1 else 0;
  }

  lemma DropTwice(c: seq<byte>, n: nat, m: nat)
    requires n + m <= |c|
    ensures c[n..][m..] == c[n + m..]
  {
  }

  /** The length behind a tag of `n` bytes that has been taken off `c`; is there as much payload? */
  method LengthAfterTag(buf: Evbuffer, ghost cs: seq<Chain>, ghost vs: seq<seq<byte>>, ghost c: seq<byte>, ghost t: nat, ghost n: nat)
    returns (whole: bool, len: nat, ghost cs': seq<Chain>, ghost vs': seq<seq<byte>>)
    requires Rep(buf, cs, vs) && DecodedTag(c) == Some((t, n)) && Flatten(vs) == c[n..]
    modifies buf, Members(cs)
    ensures Rep(buf, cs', vs') && (NoSpare(vs) ==> NoSpare(vs')) && fresh(Members(cs') - Members(cs))
    ensures Flatten(vs') == AfterHeader(c) && (whole <==> Whole(c))
    ensures whole ==> len == HeadOf(c).len
  {
    var r;
    r, len, cs', vs' := DecodeInt(buf, cs, vs, 8);
    whole := false;
    if r != -1 {
      ghost var m := DecodedInt(c[n..], 8).value.1;
      HeadIs(c, c[n..], t, n, len, m);
      DropTwice(c, n, m);
      whole := buf.totalLen >= len;
    }
  }

  /** evtag_unmarshal_header. */
  method UnmarshalHeader(buf: Evbuffer, ghost cs: seq<Chain>, ghost vs: seq<seq<byte>>)
    returns (len: int, tag: nat, ghost cs': seq<Chain>, ghost vs': seq<seq<byte>>)
    requires Rep(buf, cs, vs) && !LongTag(Flatten(vs))
    modifies buf, Members(cs)
    ensures Rep(buf, cs', vs') && (NoSpare(vs) ==> NoSpare(vs')) && fresh(Members(cs') - Members(cs))
    ensures Flatten(vs') == AfterHeader(Flatten(vs))
    ensures len == if Whole(Flatten(vs)) then AsInt(HeadOf(Flatten(vs)).len) else -1
    ensures HeadOf(Flatten(vs)).Head? ==> tag == HeadOf(Flatten(vs)).tag
  {
    ghost var c := Flatten(vs);
    var count, whole, number;
    count, tag, cs', vs' := GetTag(buf, cs, vs, true);
    len := -1;
    if count != -1 {
      whole, number, cs', vs' := LengthAfterTag(buf, cs', vs', c, DecodedTag(c).value.0, count);
      len := if whole then AsInt(number) else -1;
    }
  }

  /** evtag_peek_length, which sums up in 32 bits, and evtag_payload_length. */
  method PeekLength(buf: Evbuffer, ghost cs: seq<Chain>, ghost vs: seq<seq<byte>>, payloadOnly: bool)
    returns (r: int, length: nat, ghost cs': seq<Chain>, ghost vs': seq<seq<byte>>)
    requires Rep(buf, cs, vs) && !LongTag(Flatten(vs))
    modifies buf, Members(cs)
    ensures Rep(buf, cs', vs') && (NoSpare(vs) ==> NoSpare(vs')) && fresh(Members(cs') - Members(cs)) && Flatten(vs') == Flatten(vs)
    ensures r == if HeadOf(Flatten(vs)).Head? then 0 else -1
    ensures r == 0 ==> var h := HeadOf(Flatten(vs)); length == if payloadOnly then h.len else (h.len + h.bytes) % WORD32
  {
    ghost var c := Flatten(vs);
    var len, tag, res;
    length := 0;
    len, tag, cs', vs' := GetTag(buf, cs, vs, false);
    if len == -1 {
      return -1, 0, cs', vs';
    }
    res, length, cs', vs' := GetInt(buf, cs', vs', 8, len);
    if res == -1 {
      return -1, 0, cs', vs';
    }
    HeadIs(c, c[len..], DecodedTag(c).value.0, len, length, res);
    if !payloadOnly {
      assert HeadOf(c).len + HeadOf(c).bytes == length + res + len;
      length := (length + res + len) % WORD32;
    }
    r := 0;
  }

  /** What is left of a buffer when a record has been taken from its front. */
  function AfterRecord(c: seq<byte>): seq<byte> {
    if Whole(c) then c[HeadOf(c).bytes + HeadOf(c).len..] else AfterHeader(c)
  }

  /** The payload of the record at the front of a buffer. */
  function PayloadOf(c: seq<byte>): seq<byte>
    requires Whole(c)
  {
    var h := HeadOf(c);
    c[h.bytes..h.bytes + h.len]
  }

  /** A record whose length does not fit an int. */
  predicate Huge(c: seq<byte>) {
    Whole(c) && HeadOf(c).len >= 0x8000_0000
  }

  /** evtag_consume. */
  method Consume(buf: Evbuffer, ghost cs: seq<Chain>, ghost vs: seq<seq<byte>>)
    returns (r: int, ghost cs': seq<Chain>, ghost vs': seq<seq<byte>>)
    requires Rep(buf, cs, vs) && !LongTag(Flatten(vs)) && !Huge(Flatten(vs))
    modifies buf, Members(cs)
    ensures Rep(buf, cs', vs') && (NoSpare(vs) ==> NoSpare(vs')) && fresh(Members(cs') - Members(cs))
    ensures r == (if Whole(Flatten(vs)) then 0 else -1) && Flatten(vs') == AfterRecord(Flatten(vs))
  {
    ghost var c := Flatten(vs);
    var len, tag;
    len, tag, cs', vs' := UnmarshalHeader(buf, cs, vs);
    r := -1;
    if len != -1 {
      RecordParts(c);
      cs', vs' := Drain(buf, cs', vs', len);
      r := 0;
    }
  }

  /** evtag_peek_length says how many bytes evtag_consume will take. */
  lemma PeekedIsConsumed(c: seq<byte>)
    requires Whole(c) && |c| < WORD32
    ensures |c| - |AfterRecord(c)| == (HeadOf(c).len + HeadOf(c).bytes) % WORD32
  {
  }

  /** evbuffer_add to `dst` leaves `src` as it is. */
  method AddBeside(src: Evbuffer, ghost css: seq<Chain>, ghost vss: seq<seq<byte>>,
                   dst: Evbuffer, ghost csd: seq<Chain>, ghost vsd: seq<seq<byte>>, data: seq<byte>)
    returns (ghost csd': seq<Chain>, ghost vsd': seq<seq<byte>>)
    requires Rep(src, css, vss)
    requires Rep(dst, csd, vsd) && NoSpare(vsd) && dst != src && Members(csd) !! Members(css)
    modifies dst, Members(csd)
    ensures Rep(dst, csd', vsd') && NoSpare(vsd') && fresh(Members(csd') - Members(csd)) && Flatten(vsd') == Flatten(vsd) + data
    ensures Rep(src, css, vss) && Members(csd') !! Members(css)
  {
    csd', vsd' := EvbufferAppend.Add(dst, csd, vsd, data);
    assert Rep(src, css, vss);
  }

  /** Front of `src` leaves `dst` as it is. */
  method FrontBeside(src: Evbuffer, ghost css: seq<Chain>, ghost vss: seq<seq<byte>>,
                     dst: Evbuffer, ghost csd: seq<Chain>, ghost vsd: seq<seq<byte>>, len: nat)
    returns (data: seq<byte>, ghost css': seq<Chain>, ghost vss': seq<seq<byte>>)
    requires Rep(src, css, vss) && len <= |Flatten(vss)|
    requires Rep(dst, csd, vsd) && dst != src && Members(csd) !! Members(css)
    modifies src, Members(css)
    ensures Rep(src, css', vss') && (NoSpare(vss) ==> NoSpare(vss')) && fresh(Members(css') - Members(css)) && Flatten(vss') == Flatten(vss)
    ensures data == Flatten(vss)[..len]
    ensures Rep(dst, csd, vsd) && Members(csd) !! Members(css')
  {
    data, css', vss' := Front(src, css, vss, len);
    assert Rep(dst, csd, vsd);
  }

  /** evbuffer_add of what evbuffer_pullup returns. */
  method CopyPayload(src: Evbuffer, ghost css: seq<Chain>, ghost vss: seq<seq<byte>>,
                     dst: Evbuffer, ghost csd: seq<Chain>, ghost vsd: seq<seq<byte>>, len: nat)
    returns (ghost css': seq<Chain>, ghost vss': seq<seq<byte>>, ghost csd': seq<Chain>, ghost vsd': seq<seq<byte>>)
    requires Rep(src, css, vss) && len <= |Flatten(vss)|
    requires Rep(dst, csd, vsd) && NoSpare(vsd) && dst != src && Members(csd) !! Members(css)
    modifies src, dst, Members(css), Members(csd)
    ensures Rep(src, css', vss') && (NoSpare(vss) ==> NoSpare(vss')) && fresh(Members(css') - Members(css))
    ensures Rep(dst, csd', vsd') && NoSpare(vsd') && fresh(Members(csd') - Members(csd)) && Members(csd') !! Members(css')
    ensures Flatten(vss') == Flatten(vss) && Flatten(vsd') == Flatten(vsd) + Flatten(vss)[..len]
  {
    var data;
    data, css', vss' := FrontBeside(src, css, vss, dst, csd, vsd, len);
    csd', vsd' := AddBeside(src, css', vss', dst, csd, vsd, data);
  }

  /** evbuffer_drain of `src` leaves `dst` as it is. */
  method DrainBeside(src: Evbuffer, ghost css: seq<Chain>, ghost vss: seq<seq<byte>>,
                     dst: Evbuffer, ghost csd: seq<Chain>, ghost vsd: seq<seq<byte>>, len: nat)
    returns (ghost css': seq<Chain>, ghost vss': seq<seq<byte>>)
    requires Rep(src, css, vss) && len <= |Flatten(vss)|
    requires Rep(dst, csd, vsd) && dst != src && Members(csd) !! Members(css)
    modifies src, Members(css)
    ensures Rep(src, css', vss') && (NoSpare(vss) ==> NoSpare(vss')) && Members(css') <= Members(css)
    ensures Rep(dst, csd, vsd) && Members(csd) !! Members(css')
    ensures Flatten(vss') == Flatten(vss)[len..]
  {
    css', vss' := Drain(src, css, vss, len);
    assert Rep(dst, csd, vsd);
  }

  /** The payload is copied to the end of `dst` and drained from `src`. */
  method MovePayload(src: Evbuffer, ghost css: seq<Chain>, ghost vss: seq<seq<byte>>,
                     dst: Evbuffer, ghost csd: seq<Chain>, ghost vsd: seq<seq<byte>>, len: nat)
    returns (ghost css': seq<Chain>, ghost vss': seq<seq<byte>>, ghost csd': seq<Chain>, ghost vsd': seq<seq<byte>>)
    requires Rep(src, css, vss) && len <= |Flatten(vss)|
    requires Rep(dst, csd, vsd) && NoSpare(vsd) && dst != src && Members(csd) !! Members(css)
    modifies src, dst, Members(css), Members(csd)
    ensures Rep(src, css', vss') && (NoSpare(vss) ==> NoSpare(vss')) && fresh(Members(css') - Members(css))
    ensures Rep(dst, csd', vsd') && NoSpare(vsd') && fresh(Members(csd') - Members(csd)) && Members(csd') !! Members(css')
    ensures Flatten(vss') == Flatten(vss)[len..] && Flatten(vsd') == Flatten(vsd) + Flatten(vss)[..len]
  {
    css', vss', csd', vsd' := CopyPayload(src, css, vss, dst, csd, vsd, len);
    css', vss' := DrainBeside(src, css', vss', dst, csd', vsd', len);
  }

  /** The same, unless there is no record. */
  method MoveIfAny(src: Evbuffer, ghost css: seq<Chain>, ghost vss: seq<seq<byte>>,
                   dst: Evbuffer, ghost csd: seq<Chain>, ghost vsd: seq<seq<byte>>, len: int)
    returns (ghost css': seq<Chain>, ghost vss': seq<seq<byte>>, ghost csd': seq<Chain>, ghost vsd': seq<seq<byte>>)
    requires Rep(src, css, vss) && -1 <= len <= |Flatten(vss)|
    requires Rep(dst, csd, vsd) && NoSpare(vsd) && dst != src && Members(csd) !! Members(css)
    modifies src, dst, Members(css), Members(csd)
    ensures Rep(src, css', vss') && (NoSpare(vss) ==> NoSpare(vss')) && fresh(Members(css') - Members(css))
    ensures Rep(dst, csd', vsd') && NoSpare(vsd') && fresh(Members(csd') - Members(csd)) && Members(csd') !! Members(css')
    ensures if len == -1 then vss' == vss && vsd' == vsd
            else Flatten(vss') == Flatten(vss)[len..] && Flatten(vsd') == Flatten(vsd) + Flatten(vss)[..len]
  {
    css', vss', csd', vsd' := css, vss, csd, vsd;
    if len != -1 {
      css', vss', csd', vsd' := MovePayload(src, css, vss, dst, csd, vsd, len);
    }
  }

  lemma RecordParts(c: seq<byte>)
    requires Whole(c)
    ensures var len := HeadOf(c).len;
      && len <= |AfterHeader(c)|
      && AfterHeader(c)[..len] == PayloadOf(c) && AfterHeader(c)[len..] == AfterRecord(c)
  {
    DropTwice(c, HeadOf(c).bytes, HeadOf(c).len);
    SubSlice(c, HeadOf(c).bytes, |c|, 0, HeadOf(c).len);
    assert c[HeadOf(c).bytes..|c|] == c[HeadOf(c).bytes..];
  }

  /** evtag_unmarshal_header leaves `dst` as it is. */
  method HeaderBeside(src: Evbuffer, ghost css: seq<Chain>, ghost vss: seq<seq<byte>>,
                      dst: Evbuffer, ghost csd: seq<Chain>, ghost vsd: seq<seq<byte>>)
    returns (len: int, tag: nat, ghost css': seq<Chain>, ghost vss': seq<seq<byte>>)
    requires Rep(src, css, vss) && !LongTag(Flatten(vss))
    requires Rep(dst, csd, vsd) && dst != src && Members(csd) !! Members(css)
    modifies src, Members(css)
    ensures Rep(src, css', vss') && (NoSpare(vss) ==> NoSpare(vss')) && fresh(Members(css') - Members(css))
    ensures Flatten(vss') == AfterHeader(Flatten(vss))
    ensures len == if Whole(Flatten(vss)) then AsInt(HeadOf(Flatten(vss)).len) else -1
    ensures HeadOf(Flatten(vss)).Head? ==> tag == HeadOf(Flatten(vss)).tag
    ensures Rep(dst, csd, vsd) && Members(csd) !! Members(css')
  {
    len, tag, css', vss' := UnmarshalHeader(src, css, vss);
    assert Rep(dst, csd, vsd);
  }

  /** evtag_unmarshal. */
  method Unmarshal(src: Evbuffer, ghost css: seq<Chain>, ghost vss: seq<seq<byte>>,
                   dst: Evbuffer, ghost csd: seq<Chain>, ghost vsd: seq<seq<byte>>)
    returns (len: int, tag: nat,
             ghost css': seq<Chain>, ghost vss': seq<seq<byte>>, ghost csd': seq<Chain>, ghost vsd': seq<seq<byte>>)
    requires Rep(src, css, vss) && !LongTag(Flatten(vss)) && !Huge(Flatten(vss))
    requires Rep(dst, csd, vsd) && NoSpare(vsd) && dst != src && Members(csd) !! Members(css)
    modifies src, dst, Members(css), Members(csd)
    ensures Rep(src, css', vss') && (NoSpare(vss) ==> NoSpare(vss')) && fresh(Members(css') - Members(css))
    ensures Rep(dst, csd', vsd') && NoSpare(vsd') && fresh(Members(csd') - Members(csd)) && Members(csd') !! Members(css')
    ensures Flatten(vss') == AfterRecord(Flatten(vss))
    ensures Flatten(vsd') == if Whole(Flatten(vss)) then Flatten(vsd) + PayloadOf(Flatten(vss)) else Flatten(vsd)
    ensures len == if Whole(Flatten(vss)) then HeadOf(Flatten(vss)).len else -1
    ensures Whole(Flatten(vss)) ==> tag == HeadOf(Flatten(vss)).tag
  {
    ghost var c := Flatten(vss);
    len, tag, css', vss' := HeaderBeside(src, css, vss, dst, csd, vsd);
    if Whole(c) {
      RecordParts(c);
    }
    css', vss', csd', vsd' := MoveIfAny(src, css', vss', dst, csd, vsd, len);
  }

  lemma EncodedTagShort(tag: nat, rest: seq<byte>)
    requires tag < WORD32
    ensures !LongTag(EncodedTag(tag) + rest)
  {
    TagLength(tag);
    LastEnds(tag);
    var s := EncodedTag(tag);
    assert (s + rest)[|s| - 1] == s[|s| - 1];
  }

  lemma {:induction false} LastEnds(tag: nat)
    ensures var s := EncodedTag(tag); s[|s| - 1] < 128
  {
    if tag >= 128 {
      LastEnds(tag / 128);
    }
  }

  /** What decoding finds at the front of a buffer where a tag and a length stand. */
  lemma HeadInFront(tag: nat, n: nat, more: seq<byte>, body: seq<byte>)
    requires tag < WORD32 && n < WORD32 && body == EncodedInt(n) + more
    ensures HeadOf(EncodedTag(tag) + body) == Head(tag, n, |EncodedTag(tag)| + |EncodedInt(n)|)
  {
    assert tag % WORD32 == tag;
    TagRoundTrip(tag, body);
    LengthInFront(n, more);
    HeadIs(EncodedTag(tag) + body, body, tag, |EncodedTag(tag)|, n, |EncodedInt(n)|);
  }

  lemma RecordHead(tag: nat, payload: seq<byte>, rest: seq<byte>)
    requires tag < WORD32 && |payload| < WORD32
    ensures !LongTag(Record(tag, payload) + rest)
    ensures HeadOf(Record(tag, payload) + rest) == Head(tag, |payload|, |EncodedTag(tag)| + |EncodedInt(|payload|)|)
  {
    var body := EncodedInt(|payload|) + (payload + rest);
    RecordAndRest(EncodedTag(tag), EncodedInt(|payload|), payload, rest);
    EncodedTagShort(tag, body);
    HeadInFront(tag, |payload|, payload + rest, body);
  }

  lemma LengthInFront(n: nat, rest: seq<byte>)
    requires n < WORD32
    ensures DecodedInt(EncodedInt(n) + rest, 8) == Some((n, |EncodedInt(n)|))
  {
    EncodedIntEncodes(n);
    WordsHaveNibbles();
    IntRoundTrip(EncodedInt(n), n, rest, 8);
  }

  lemma RecordAndRest(t: seq<byte>, l: seq<byte>, payload: seq<byte>, rest: seq<byte>)
    ensures t + (l + payload) + rest == t + (l + (payload + rest))
    ensures (t + (l + (payload + rest)))[|t|..] == l + (payload + rest)
  {
    Assoc(t, l + payload, rest);
    Assoc(l, payload, rest);
  }

  lemma RecordCut(head: seq<byte>, payload: seq<byte>, rest: seq<byte>)
    ensures var c := head + payload + rest;
      && |head| + |payload| <= |c| && c[|head|..|head| + |payload|] == payload && c[|head| + |payload|..] == rest
  {
  }

  /** What the front of a buffer looks like when a record stands there. */
  lemma RecordInFront(tag: nat, payload: seq<byte>, rest: seq<byte>)
    requires tag < WORD32 && |payload| < WORD32
    ensures var c := Record(tag, payload) + rest;
      && !LongTag(c) && Whole(c) && HeadOf(c).tag == tag && HeadOf(c).len == |payload|
      && PayloadOf(c) == payload && AfterRecord(c) == rest
  {
    RecordHead(tag, payload, rest);
    var t, l := EncodedTag(tag), EncodedInt(|payload|);
    Assoc(t, l, payload);
    RecordCut(t + l, payload, rest);
  }

  /** A list of records, one after the other. */
  function Stream(recs: seq<(nat, seq<byte>)>): seq<byte> {
    if recs == [] then [] else Record(recs[0].0, recs[0].1) + Stream(recs[1..])
  }

  lemma {:induction false} StreamSnoc(recs: seq<(nat, seq<byte>)>, r: (nat, seq<byte>))
    ensures Stream(recs + [r]) == Stream(recs) + Record(r.0, r.1)
  {
    if recs == [] {
      assert Stream([r]) == Record(r.0, r.1) + Stream([]);
    } else {
      assert (recs + [r])[1..] == recs[1..] + [r];
      StreamSnoc(recs[1..], r);
      Assoc(Record(recs[0].0, recs[0].1), Stream(recs[1..]), Record(r.0, r.1));
    }
  }

  /** Records that can be marshalled and read back. */
  predicate Marshalable(recs: seq<(nat, seq<byte>)>) {
    forall i :: 0 <= i < |recs| ==> recs[i].0 < WORD32 && |recs[i].1| < 0x8000_0000
  }

  /** All records are marshalled into a new buffer. */
  method MarshalAll(recs: seq<(nat, seq<byte>)>) returns (buf: Evbuffer, ghost cs: seq<Chain>, ghost vs: seq<seq<byte>>)
    requires Marshalable(recs)
    ensures fresh(buf) && fresh(Members(cs)) && Rep(buf, cs, vs) && NoSpare(vs) && Flatten(vs) == Stream(recs)
  {
    buf := new Evbuffer();
    cs, vs := [], [];
    for i := 0 to |recs|
      invariant fresh(buf) && fresh(Members(cs)) && Rep(buf, cs, vs) && NoSpare(vs) && Flatten(vs) == Stream(recs[..i])
    {
      assert recs[..i + 1] == recs[..i] + [recs[i]];
      StreamSnoc(recs[..i], recs[i]);
      cs, vs := Marshal(buf, cs, vs, recs[i].0, recs[i].1);
    }
    assert recs[..|recs|] == recs;
  }

  /** A new buffer beside another. */
  method NewBeside(src: Evbuffer, ghost cs: seq<Chain>, ghost vs: seq<seq<byte>>) returns (dst: Evbuffer)
    requires Rep(src, cs, vs)
    ensures fresh(dst) && Rep(dst, [], []) && NoSpare([]) && Rep(src, cs, vs)
  {
    dst := new Evbuffer();
    assert Rep(src, cs, vs);
  }

  /** evtag_unmarshal into a new buffer. */
  method UnmarshalNew(src: Evbuffer, ghost cs: seq<Chain>, ghost vs: seq<seq<byte>>)
    returns (len: int, tag: nat, dst: Evbuffer,
             ghost cs': seq<Chain>, ghost vs': seq<seq<byte>>, ghost csd: seq<Chain>, ghost vsd: seq<seq<byte>>)
    requires Rep(src, cs, vs) && !LongTag(Flatten(vs)) && !Huge(Flatten(vs))
    modifies src, Members(cs)
    ensures Rep(src, cs', vs') && (NoSpare(vs) ==> NoSpare(vs')) && fresh(Members(cs') - Members(cs))
    ensures fresh(dst) && fresh(Members(csd)) && Rep(dst, csd, vsd) && Members(csd) !! Members(cs')
    ensures Flatten(vs') == AfterRecord(Flatten(vs))
    ensures len == if Whole(Flatten(vs)) then HeadOf(Flatten(vs)).len else -1
    ensures Whole(Flatten(vs)) ==> tag == HeadOf(Flatten(vs)).tag && Flatten(vsd) == PayloadOf(Flatten(vs))
  {
    dst := NewBeside(src, cs, vs);
    ghost var none: seq<Chain> := [];
    assert Members(none) == {};
    len, tag, cs', vs', csd, vsd := Unmarshal(src, cs, vs, dst, none, []);
    assert Members(csd) - {} == Members(csd);
    assert Whole(Flatten(vs)) ==> [] + PayloadOf(Flatten(vs)) == PayloadOf(Flatten(vs));
  }

  /** All bytes of one buffer are read, beside another. */
  method ReadBeside(dst: Evbuffer, ghost csd: seq<Chain>, ghost vsd: seq<seq<byte>>, len: nat,
                    ghost src: Evbuffer, ghost cs: seq<Chain>, ghost vs: seq<seq<byte>>)
    returns (payload: seq<byte>)
    requires Rep(dst, csd, vsd) && |Flatten(vsd)| == len
    requires Rep(src, cs, vs) && src != dst && Members(csd) !! Members(cs)
    modifies dst, Members(csd)
    ensures payload == Flatten(vsd) && Rep(src, cs, vs)
  {
    ghost var csd', vsd';
    payload, csd', vsd' := TakeBytes(dst, csd, vsd, len);
    assert Flatten(vsd)[..len] == Flatten(vsd);
  }

  /** One record, and its payload read from the buffer it was unmarshalled into. */
  method UnmarshalOne(src: Evbuffer, ghost cs: seq<Chain>, ghost vs: seq<seq<byte>>)
    returns (len: int, tag: nat, payload: seq<byte>, ghost cs': seq<Chain>, ghost vs': seq<seq<byte>>)
    requires Rep(src, cs, vs) && !LongTag(Flatten(vs)) && !Huge(Flatten(vs))
    modifies src, Members(cs)
    ensures Rep(src, cs', vs') && (NoSpare(vs) ==> NoSpare(vs')) && fresh(Members(cs') - Members(cs))
    ensures Flatten(vs') == AfterRecord(Flatten(vs))
    ensures len == if Whole(Flatten(vs)) then HeadOf(Flatten(vs)).len else -1
    ensures Whole(Flatten(vs)) ==> tag == HeadOf(Flatten(vs)).tag && payload == PayloadOf(Flatten(vs))
  {
    var dst;
    ghost var csd, vsd;
    len, tag, dst, cs', vs', csd, vsd := UnmarshalNew(src, cs, vs);
    payload := [];
    if len != -1 {
      payload := ReadBeside(dst, csd, vsd, len, src, cs', vs');
    }
  }

  /** The next record of a stream stands at its front. */
  lemma NextRecord(got: seq<(nat, seq<byte>)>, left: seq<(nat, seq<byte>)>)
    requires Marshalable(left) && left != []
    ensures var c := Stream(left);
      && !LongTag(c) && !Huge(c) && Whole(c) && (HeadOf(c).tag, PayloadOf(c)) == left[0]
      && AfterRecord(c) == Stream(left[1..]) && |AfterRecord(c)| < |c|
    ensures Marshalable(left[1..]) && got + [left[0]] + left[1..] == got + left
  {
    var (t, p) := left[0];
    RecordInFront(t, p, Stream(left[1..]));
    assert [left[0]] + left[1..] == left;
    Assoc(got, [left[0]], left[1..]);
  }

  lemma SomethingThere(recs: seq<(nat, seq<byte>)>)
    ensures Stream(recs) == [] <==> recs == []
  {
    if recs != [] {
      assert |Record(recs[0].0, recs[0].1)| > 0;
    }
  }

  /** A caller that unmarshals until the buffer is empty: it gets the records that were in it, and nothing is left. */
  method UnmarshalAll(buf: Evbuffer, ghost cs: seq<Chain>, ghost vs: seq<seq<byte>>, ghost recs: seq<(nat, seq<byte>)>)
    returns (got: seq<(nat, seq<byte>)>, ghost cs': seq<Chain>, ghost vs': seq<seq<byte>>)
    requires Rep(buf, cs, vs) && Marshalable(recs) && Flatten(vs) == Stream(recs)
    modifies buf, Members(cs)
    ensures Rep(buf, cs', vs') && (NoSpare(vs) ==> NoSpare(vs')) && fresh(Members(cs') - Members(cs))
    ensures got == recs && Flatten(vs') == []
  {
    got, cs', vs' := [], cs, vs;
    ghost var left := recs;
    while buf.totalLen > 0
      invariant Rep(buf, cs', vs') && (NoSpare(vs) ==> NoSpare(vs')) && fresh(Members(cs') - Members(cs))
      invariant Marshalable(left) && got + left == recs && Flatten(vs') == Stream(left)
      decreases buf.totalLen
    {
      NextRecord(got, left);
      var len, tag, payload;
      len, tag, payload, cs', vs' := UnmarshalOne(buf, cs', vs');
      got, left := got + [(tag, payload)], left[1..];
    }
    SomethingThere(left);
  }

  /** Marshalled records come back as they were, and the buffer they went through is empty. */
  method MarshalThenUnmarshal(recs: seq<(nat, seq<byte>)>)
    returns (got: seq<(nat, seq<byte>)>, buf: Evbuffer, ghost cs: seq<Chain>, ghost vs: seq<seq<byte>>)
    requires Marshalable(recs)
    ensures got == recs && Rep(buf, cs, vs) && Flatten(vs) == []
  {
    buf, cs, vs := MarshalAll(recs);
    got, cs, vs := UnmarshalAll(buf, cs, vs, recs);
  }

  /** evtag_marshal_int and evtag_marshal_int64. */
  method MarshalInt(buf: Evbuffer, ghost cs: seq<Chain>, ghost vs: seq<seq<byte>>, tag: nat, number: nat)
    returns (ghost cs': seq<Chain>, ghost vs': seq<seq<byte>>)
    requires Rep(buf, cs, vs) && NoSpare(vs) && tag < WORD32 && number < WORD64
    modifies buf, Members(cs)
    ensures Rep(buf, cs', vs') && NoSpare(vs') && fresh(Members(cs') - Members(cs))
    ensures Flatten(vs') == Flatten(vs) + Record(tag, EncodedInt(number))
  {
    var data := new byte[9];
    WordsHaveNibbles();
    var len := EncodeInt(data, number, 16);
    EncodedIntEncodes(number);
    OneEncoding(data[..len], EncodedInt(number), number);
    cs', vs' := Marshal(buf, cs, vs, tag, data[..len]);
  }

  /** What evtag_unmarshal_int says of the payload: a number that does not reach beyond the record. */
  function IntIn(c: seq<byte>, most: nat): Option<(nat, nat)>
    requires Whole(c)
  {
    match DecodedInt(AfterHeader(c), most)
    case None => None
    case Some((x, n)) => if n > HeadOf(c).len then None else Some((x, n))
  }

  /** The end of evtag_unmarshal_int: the number is read, and the payload drained. */
  method TakeInt(buf: Evbuffer, ghost cs: seq<Chain>, ghost vs: seq<seq<byte>>, most: nat, len: nat)
    returns (r: int, number: nat, ghost cs': seq<Chain>, ghost vs': seq<seq<byte>>)
    requires Rep(buf, cs, vs) && len <= |Flatten(vs)|
    modifies buf, Members(cs)
    ensures Rep(buf, cs', vs') && (NoSpare(vs) ==> NoSpare(vs')) && fresh(Members(cs') - Members(cs))
    ensures Flatten(vs') == Flatten(vs)[len..]
    ensures match DecodedInt(Flatten(vs), most)
            case None => r == -1
            case Some((x, n)) => if n > len then r == -1 else r == n && number == x
  {
    assert Flatten(vs)[0..] == Flatten(vs);
    r, number, cs', vs' := GetInt(buf, cs, vs, most, 0);
    cs', vs' := Drain(buf, cs', vs', len);
    if r > len {
      r := -1;
    }
  }

  /** The record at the front of the buffer is whole and has the tag asked for. */
  predicate Fits(c: seq<byte>, needTag: nat) {
    Whole(c) && HeadOf(c).tag == needTag
  }

  /** What is left when the beginning of evtag_unmarshal_int is over: the length is only taken off behind the tag asked for. */
  function AfterNeeded(c: seq<byte>, needTag: nat): seq<byte> {
    match DecodedTag(c)
    case None => c
    case Some((t, n)) => if t % WORD32 != needTag then c[n..] else AfterHeader(c)
  }

  /** The beginning of evtag_unmarshal_int, which compares the tag before it reads the length. */
  method NeededHead(buf: Evbuffer, ghost cs: seq<Chain>, ghost vs: seq<seq<byte>>, needTag: nat)
    returns (ok: bool, len: nat, ghost cs': seq<Chain>, ghost vs': seq<seq<byte>>)
    requires Rep(buf, cs, vs) && !LongTag(Flatten(vs))
    modifies buf, Members(cs)
    ensures Rep(buf, cs', vs') && (NoSpare(vs) ==> NoSpare(vs')) && fresh(Members(cs') - Members(cs))
    ensures ok <==> Fits(Flatten(vs), needTag)
    ensures ok ==> len == HeadOf(Flatten(vs)).len
    ensures Flatten(vs') == AfterNeeded(Flatten(vs), needTag)
  {
    ghost var c := Flatten(vs);
    var count, tag;
    ok, len := false, 0;
    count, tag, cs', vs' := GetTag(buf, cs, vs, true);
    if count != -1 && needTag == tag {
      ok, len, cs', vs' := LengthAfterTag(buf, cs', vs', c, DecodedTag(c).value.0, count);
    }
  }

  /** evtag_unmarshal_int with 8 digits, and evtag_unmarshal_int64 with 16. */
  method UnmarshalInt(buf: Evbuffer, ghost cs: seq<Chain>, ghost vs: seq<seq<byte>>, needTag: nat, most: nat)
    returns (r: int, number: nat, ghost cs': seq<Chain>, ghost vs': seq<seq<byte>>)
    requires Rep(buf, cs, vs) && !LongTag(Flatten(vs))
    modifies buf, Members(cs)
    ensures Rep(buf, cs', vs') && (NoSpare(vs) ==> NoSpare(vs')) && fresh(Members(cs') - Members(cs))
    ensures !Fits(Flatten(vs), needTag) ==> r == -1 && Flatten(vs') == AfterNeeded(Flatten(vs), needTag)
    ensures Fits(Flatten(vs), needTag) ==> Flatten(vs') == AfterRecord(Flatten(vs))
    ensures Fits(Flatten(vs), needTag) ==>
      match IntIn(Flatten(vs), most) {
        case None => r == -1
        case Some((x, n)) => r == n && number == x
      }
  {
    ghost var c := Flatten(vs);
    var ok, len;
    ok, len, cs', vs' := NeededHead(buf, cs, vs, needTag);
    if !ok {
      return -1, 0, cs', vs';
    }
    RecordParts(c);
    r, number, cs', vs' := TakeInt(buf, cs', vs', most, len);
  }

  /** Integers come back: all 32-bit ones with 8 digits, all 64-bit ones with 16. */
  lemma IntComesBack(tag: nat, number: nat, most: nat, rest: seq<byte>)
    requires tag < WORD32 && 1 <= most <= 16 && number < Power16(most) && number < WORD64
    ensures var c := Record(tag, EncodedInt(number)) + rest;
      && !LongTag(c) && Whole(c) && HeadOf(c).tag == tag && AfterRecord(c) == rest
      && IntIn(c, most) == Some((number, |EncodedInt(number)|))
  {
    var s := EncodedInt(number);
    ShortInt(number);
    BodyInFront(tag, s, rest);
    IntRoundTrip(s, number, rest, most);
  }

  lemma ShortInt(number: nat)
    requires number < WORD64
    ensures EncodesInt(EncodedInt(number), number) && |EncodedInt(number)| < WORD32 / 2
  {
    EncodedIntEncodes(number);
    WordsHaveNibbles();
    NibblesLength(number, 16);
  }

  /** Behind the header of a record stand its payload and what follows it. */
  lemma BodyInFront(tag: nat, s: seq<byte>, rest: seq<byte>)
    requires tag < WORD32 && |s| < WORD32 / 2
    ensures var c := Record(tag, s) + rest;
      && !LongTag(c) && !Huge(c) && Whole(c) && HeadOf(c).tag == tag && HeadOf(c).len == |s|
      && AfterRecord(c) == rest && AfterHeader(c) == s + rest
  {
    var c := Record(tag, s) + rest;
    RecordInFront(tag, s, rest);
    RecordParts(c);
    var body := AfterHeader(c);
    assert body == body[..|s|] + body[|s|..];
  }

  /** evtag_marshal_timeval. */
  method MarshalTimeval(buf: Evbuffer, ghost cs: seq<Chain>, ghost vs: seq<seq<byte>>, tag: nat, sec: nat, usec: nat)
    returns (ghost cs': seq<Chain>, ghost vs': seq<seq<byte>>)
    requires Rep(buf, cs, vs) && NoSpare(vs) && tag < WORD32 && sec < WORD32 && usec < WORD32
    modifies buf, Members(cs)
    ensures Rep(buf, cs', vs') && NoSpare(vs') && fresh(Members(cs') - Members(cs))
    ensures Flatten(vs') == Flatten(vs) + Record(tag, EncodedInt(sec) + EncodedInt(usec))
  {
    var data := IntBytes(sec);
    var more := IntBytes(usec);
    cs', vs' := Marshal(buf, cs, vs, tag, data + more);
  }

  /** encode_int_internal into memory of its own. */
  method IntBytes(number: nat) returns (s: seq<byte>)
    requires number < WORD32
    ensures s == EncodedInt(number) && |s| <= 5
  {
    var data := new byte[5];
    WordsHaveNibbles();
    var len := EncodeInt(data, number, 8);
    EncodedIntEncodes(number);
    OneEncoding(data[..len], EncodedInt(number), number);
    s := data[..len];
  }

  /** evtag_unmarshal_timeval. */
  method UnmarshalTimeval(buf: Evbuffer, ghost cs: seq<Chain>, ghost vs: seq<seq<byte>>, needTag: nat)
    returns (r: int, sec: nat, usec: nat, ghost cs': seq<Chain>, ghost vs': seq<seq<byte>>)
    requires Rep(buf, cs, vs) && !LongTag(Flatten(vs)) && !Huge(Flatten(vs))
    modifies buf, Members(cs)
    ensures Rep(buf, cs', vs') && (NoSpare(vs) ==> NoSpare(vs')) && fresh(Members(cs') - Members(cs))
    ensures Flatten(vs') == AfterRecord(Flatten(vs))
    ensures r == 0 <==> Whole(Flatten(vs)) && HeadOf(Flatten(vs)).tag == needTag && TimeIn(Flatten(vs)).Some?
    ensures r == 0 ==> TimeIn(Flatten(vs)) == Some((sec, usec))
  {
    ghost var c := Flatten(vs);
    var len, tag;
    r, sec, usec := -1, 0, 0;
    len, tag, cs', vs' := UnmarshalHeader(buf, cs, vs);
    if len == -1 {
      return;
    }
    RecordParts(c);
    r, sec, usec, cs', vs' := TakeTime(buf, cs', vs', len, tag == needTag);
  }

  /** The payload goes, and is decoded first if it is the one that is `needed`. */
  method TakeTime(buf: Evbuffer, ghost cs: seq<Chain>, ghost vs: seq<seq<byte>>, len: nat, needed: bool)
    returns (r: int, sec: nat, usec: nat, ghost cs': seq<Chain>, ghost vs': seq<seq<byte>>)
    requires Rep(buf, cs, vs) && len <= |Flatten(vs)|
    modifies buf, Members(cs)
    ensures Rep(buf, cs', vs') && (NoSpare(vs) ==> NoSpare(vs')) && fresh(Members(cs') - Members(cs)) && Flatten(vs') == Flatten(vs)[len..]
    ensures r == if needed && TwoInts(Flatten(vs), len).Some? then 0 else -1
    ensures r == 0 ==> TwoInts(Flatten(vs), len) == Some((sec, usec))
  {
    r, sec, usec, cs', vs' := -1, 0, 0, cs, vs;
    if needed {
      r, sec, usec, cs', vs' := GetTime(buf, cs, vs, len);
    }
    cs', vs' := Drain(buf, cs', vs', len);
  }

  /** Two numbers, one behind the other, in the first `len` bytes. */
  function TwoInts(c: seq<byte>, len: nat): Option<(nat, nat)> {
    match DecodedInt(c, 8)
    case None => None
    case Some((x, n)) =>
      match DecodedInt(c[n..], 8)
      case None => None
      case Some((y, m)) => if n + m > len then None else Some((x, y))
  }

  function TimeIn(c: seq<byte>): Option<(nat, nat)>
    requires Whole(c)
  {
    TwoInts(AfterHeader(c), HeadOf(c).len)
  }

  method GetTime(buf: Evbuffer, ghost cs: seq<Chain>, ghost vs: seq<seq<byte>>, len: nat)
    returns (r: int, sec: nat, usec: nat, ghost cs': seq<Chain>, ghost vs': seq<seq<byte>>)
    requires Rep(buf, cs, vs)
    modifies buf, Members(cs)
    ensures Rep(buf, cs', vs') && (NoSpare(vs) ==> NoSpare(vs')) && fresh(Members(cs') - Members(cs)) && Flatten(vs') == Flatten(vs)
    ensures r == if TwoInts(Flatten(vs), len).Some? then 0 else -1
    ensures r == 0 ==> TwoInts(Flatten(vs), len) == Some((sec, usec))
  {
    var offset, offset2;
    usec := 0;
    assert Flatten(vs)[0..] == Flatten(vs);
    offset, sec, cs', vs' := GetInt(buf, cs, vs, 8, 0);
    if offset == -1 {
      return -1, sec, 0, cs', vs';
    }
    offset2, usec, cs', vs' := GetInt(buf, cs', vs', 8, offset);
    r := if offset2 == -1 || offset + offset2 > len then -1 else 0;
  }

  /** Times of 32-bit seconds and microseconds come back. */
  lemma TimeComesBack(tag: nat, sec: nat, usec: nat, rest: seq<byte>)
    requires tag < WORD32 && sec < WORD32 && usec < WORD32
    ensures var c := Record(tag, EncodedInt(sec) + EncodedInt(usec)) + rest;
      && !LongTag(c) && !Huge(c) && Whole(c) && HeadOf(c).tag == tag && AfterRecord(c) == rest
      && TimeIn(c) == Some((sec, usec))
  {
    var s, u := EncodedInt(sec), EncodedInt(usec);
    EncodedIntEncodes(sec);
    EncodedIntEncodes(usec);
    WordsHaveNibbles();
    NibblesLength(sec, 8);
    NibblesLength(usec, 8);
    RecordInFront(tag, s + u, rest);
    var c := Record(tag, s + u) + rest;
    RecordParts(c);
    var body := AfterHeader(c);
    assert body == s + (u + rest) by {
      assert body == body[..|s + u|] + body[|s + u|..];
      Assoc(s, u, rest);
    }
    IntRoundTrip(s, sec, u + rest, 8);
    IntRoundTrip(u, usec, rest, 8);
    assert body[|s|..] == u + rest;
  }
}
