/** What decoding finds in a record that has been marshalled, whatever follows it. */
module TaggingLaws {
  import opened Bytes
  import opened TagCodec
  import opened Tagging

  /** A length as an int: the number with the same 32 bits. */
  lemma AsIntMeans(u: nat)
    requires u < 0x1_0000_0000
    ensures -0x8000_0000 <= AsInt(u) < 0x8000_0000 && (AsInt(u) == u || AsInt(u) == u - 0x1_0000_0000)
  {
  }

  /** An integer at the front of some bytes is found there exactly when it does not reach beyond them. */
  lemma DecodedCut(p: seq<byte>, rest: seq<byte>, most: nat)
    ensures DecodedInt(p, most) ==
      match DecodedInt(p + rest, most)
      case None => None
      case Some((x, n)) => if n <= |p| then Some((x, n)) else None
  {
    var all := p + rest;
    assert forall k: nat :: k / 2 < |p| ==> NibbleAt(all, k) == NibbleAt(p, k);
    if p != [] {
      var n := NibbleAt(p, 0) + 1;
      assert NibbleAt(all, 0) + 1 == n;
      if n / 2 < |p| {
        assert DigitsOf(all, n) == DigitsOf(p, n);
      }
    }
  }

  /** The record of a tag is the one for that tag only. */
  lemma FitsItsTag(tag: nat, p: seq<byte>, rest: seq<byte>, needTag: nat)
    requires tag < WORD32 && |p| < WORD32 / 2
    ensures Fits(Record(tag, p) + rest, needTag) <==> tag == needTag
  {
    RecordInFront(tag, p, rest);
  }

  lemma WrongTag(c: seq<byte>, t: nat, n: nat, needTag: nat)
    requires DecodedTag(c) == Some((t, n)) && t % WORD32 != needTag
    ensures n <= |c| && AfterNeeded(c, needTag) == c[n..]
  {
  }

  /** When another tag is asked for, the tag is gone, and nothing but the tag. */
  lemma OnlyTagGone(tag: nat, p: seq<byte>, rest: seq<byte>, needTag: nat)
    requires tag < WORD32 && |p| < WORD32 / 2 && tag != needTag
    ensures AfterNeeded(Record(tag, p) + rest, needTag) == EncodedInt(|p|) + p + rest
  {
    var behind := EncodedInt(|p|) + p + rest;
    var c := Record(tag, p) + rest;
    assert c == EncodedTag(tag) + behind;
    TagRoundTrip(tag, behind);
    WrongTag(c, tag, |EncodedTag(tag)|, needTag);
    assert c[|EncodedTag(tag)|..] == behind;
  }

  /** The integer is decoded from the payload alone. */
  lemma IntOfPayload(tag: nat, p: seq<byte>, rest: seq<byte>, most: nat)
    requires tag < WORD32 && |p| < WORD32 / 2
    ensures Whole(Record(tag, p) + rest) && IntIn(Record(tag, p) + rest, most) == DecodedInt(p, most)
  {
    BodyInFront(tag, p, rest);
    DecodedCut(p, rest, most);
  }

  /** And so is a time: the seconds first, the microseconds right behind them. */
  lemma TimeOfPayload(tag: nat, p: seq<byte>, rest: seq<byte>)
    requires tag < WORD32 && |p| < WORD32 / 2
    ensures Whole(Record(tag, p) + rest) && TimeIn(Record(tag, p) + rest) ==
      match DecodedInt(p, 8)
      case None => None
      case Some((sec, n)) =>
        match DecodedInt(p[n..], 8)
        case None => None
        case Some((usec, m)) => Some((sec, usec))
  {
    BodyInFront(tag, p, rest);
    DecodedCut(p, rest, 8);
    var first := DecodedInt(p + rest, 8);
    if first.Some? && first.value.1 <= |p| {
      var n := first.value.1;
      assert (p + rest)[n..] == p[n..] + rest;
      DecodedCut(p[n..], rest, 8);
    }
  }
}
