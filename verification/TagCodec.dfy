/** How tags and integers are laid out in bytes by the tagged data format. */
module TagCodec {
  import opened Bytes

  const WORD32: nat := 0x1_0000_0000
  const WORD64: nat := 0x1_0000_0000_0000_0000

  /** The hexadecimal digits of a number, least significant first; none for 0. */
  function Nibbles(n: nat): seq<nat> {
    if n == 0 then [] else [n % 16] + Nibbles(n / 16)
  }

  function Value(ns: seq<nat>): nat {
    if ns == [] then 0 else ns[0] + 16 * Value(ns[1..])
  }

  function Power16(k: nat): nat {
    if k == 0 then 1 else 16 * Power16(k - 1)
  }

  lemma {:induction false} NibblesMean(n: nat)
    ensures Value(Nibbles(n)) == n
    ensures forall i :: 0 <= i < |Nibbles(n)| ==> Nibbles(n)[i] < 16
  {
    if n > 0 {
      NibblesMean(n / 16);
      assert Nibbles(n)[1..] == Nibbles(n / 16);
    }
  }

  lemma {:induction false} NibblesLength(n: nat, k: nat)
    requires n < Power16(k)
    ensures |Nibbles(n)| <= k
  {
    if n > 0 {
      NibblesLength(n / 16, k - 1);
    }
  }

  lemma WordsHaveNibbles()
    ensures Power16(8) == WORD32 && Power16(16) == WORD64
  {
    assert Power16(4) == 0x10000;
    assert Power16(8) == 0x10000 * Power16(4);
    assert Power16(12) == 0x10000 * Power16(8);
    assert Power16(16) == 0x10000 * Power16(12);
  }

  /** Nibble k of a byte string: the high half of a byte comes before its low half. */
  function NibbleAt(s: seq<byte>, k: nat): (x: nat)
    requires k / 2 < |s|
    ensures x < 16
  {
    var b: int := s[k / 2];
    if k % 2 == 0 then b / 16 else b % 16
  }

  /** What stands at nibble k of an encoded integer: the number of digits less one, then the digits, then padding. */
  function Layout(ns: seq<nat>, k: nat): nat {
    if k == 0 then (if ns == [] then 0 else |ns| - 1)
    else if k - 1 < |ns| then ns[k - 1] else 0
  }

  /** `s` is the encoding of `n`. */
  ghost predicate EncodesInt(s: seq<byte>, n: nat) {
    var ns := Nibbles(n);
    |ns| <= 16 && |s| == |ns| / 2 + 1 && forall k: nat {:trigger NibbleAt(s, k)} :: k / 2 < |s| ==> NibbleAt(s, k) == Layout(ns, k)
  }

  /** One nibble of the memory is overwritten. */
  method PutNibble(data: array<byte>, k: nat, x: nat)
    requires k / 2 < data.Length && x < 16
    modifies data
    ensures forall j: nat {:trigger NibbleAt(data[..], j)} :: j / 2 < data.Length ==>
      NibbleAt(data[..], j) == if j == k then x else NibbleAt(old(data[..]), j)
  {
    ghost var before := data[..];
    var b: int := data[k / 2];
    if k % 2 == 1 {
      data[k / 2] := b / 16 * 16 + x;
    } else {
      data[k / 2] := b % 16 + x * 16;
    }
    forall j: nat | j / 2 < data.Length
      ensures NibbleAt(data[..], j) == if j == k then x else NibbleAt(before, j)
    {
      assert j / 2 != k / 2 ==> data[..][j / 2] == before[j / 2];
    }
  }

  /** Nibbles 1 up to `off` are the first digits, all others are 0. */
  ghost predicate Digits(s: seq<byte>, ns: seq<nat>, off: nat) {
    off - 1 <= |ns| && forall k: nat {:trigger NibbleAt(s, k)} :: k / 2 < |s| ==> NibbleAt(s, k) == if 0 < k < off then ns[k - 1] else 0
  }

  /** The loop body: the least significant digit that is left. */
  method PutDigit(data: array<byte>, off: nat, number: nat, ghost ns: seq<nat>)
    requires number > 0 && 1 <= off <= |ns| + 1 && |ns| / 2 < data.Length
    requires ns[off - 1..] == Nibbles(number) && Digits(data[..], ns, off)
    modifies data
    ensures off <= |ns| && ns[off..] == Nibbles(number / 16) && Digits(data[..], ns, off + 1)
  {
    assert ns[off - 1] == number % 16 && ns[off - 1..][1..] == ns[off..];
    PutNibble(data, off, number % 16);
  }

  /** The first nibble: how many there are besides the first digit. */
  method PutLength(data: array<byte>, nibbles: nat, ghost ns: seq<nat>)
    requires Digits(data[..], ns, |ns| + 1) && |ns| <= 16 && nibbles == (if |ns| > 1 then |ns| - 1 else 0) && data.Length > 0
    modifies data
    ensures forall k: nat {:trigger NibbleAt(data[..], k)} :: k / 2 < data.Length ==> NibbleAt(data[..], k) == Layout(ns, k)
  {
    PutNibble(data, 0, nibbles % 16);
  }

  /** ENCODE_INT_INTERNAL: the digits are put in their nibbles one after the other, least significant first. */
  method EncodeInt(data: array<byte>, number0: nat, ghost most: nat) returns (len: nat)
    requires number0 < Power16(most) && most <= 16 && data.Length >= most / 2 + 1
    modifies data
    ensures len <= data.Length && EncodesInt(data[..len], number0)
  {
    forall i | 0 <= i < data.Length {
      data[i] := 0;
    }
    var off: nat, nibbles: nat, number := 1, 0, number0;
    ghost var ns := Nibbles(number0);
    NibblesMean(number0);
    NibblesLength(number0, most);
    assert ns[0..] == ns;
    while number > 0
      invariant 1 <= off && off - 1 <= |ns| && ns[off - 1..] == Nibbles(number) && Digits(data[..], ns, off)
    {
      PutDigit(data, off, number, ns);
      number := number / 16;
      off := off + 1;
    }
    if off > 2 {
      nibbles := off - 2;
    }
    assert Nibbles(0) == [] && off == |ns| + 1;
    PutLength(data, nibbles, ns);
    len := (off + 1) / 2;
    Cut(data[..], len, ns);
  }

  lemma Cut(s: seq<byte>, len: nat, ns: seq<nat>)
    requires len <= |s|
    requires forall k: nat {:trigger NibbleAt(s, k)} :: k / 2 < |s| ==> NibbleAt(s, k) == Layout(ns, k)
    ensures forall k: nat {:trigger NibbleAt(s[..len], k)} :: k / 2 < len ==> NibbleAt(s[..len], k) == Layout(ns, k)
  {
    forall k: nat | k / 2 < len
      ensures NibbleAt(s[..len], k) == Layout(ns, k)
    {
      assert NibbleAt(s, k) == Layout(ns, k);
    }
  }

  /** The first n digits that follow the count. */
  function DigitsOf(s: seq<byte>, n: nat): seq<nat>
    requires n / 2 < |s|
  {
    seq(n, i requires 0 <= i < n => NibbleAt(s, i + 1))
  }

  /** What decoding finds at the front of `s`: a number of at most `most` digits and how many bytes it takes. */
  function DecodedInt(s: seq<byte>, most: nat): Option<(nat, nat)> {
    if s == [] then None
    else
      var n := NibbleAt(s, 0) + 1;
      if n > most || n / 2 + 1 > |s| then None else Some((Value(DigitsOf(s, n)), n / 2 + 1))
  }

  /** The loop of DECODE_INT_INTERNAL, from the most significant digit down. */
  method CollectDigits(data: seq<byte>, nibbles0: nat) returns (number: nat)
    requires nibbles0 / 2 < |data|
    ensures number == Value(DigitsOf(data, nibbles0))
  {
    var nibbles: nat := nibbles0;
    number := 0;
    ghost var ds := DigitsOf(data, nibbles0);
    while nibbles > 0
      invariant nibbles <= nibbles0 && number == Value(ds[nibbles..])
    {
      number := number * 16;
      var b: int := data[nibbles / 2];
      if nibbles % 2 == 1 {
        number := number + b % 16;
      } else {
        number := number + b / 16;
      }
      nibbles := nibbles - 1;
      assert ds[nibbles..][1..] == ds[nibbles + 1..] && ds[nibbles] == NibbleAt(data, nibbles + 1);
    }
    assert ds[0..] == ds;
  }

  lemma {:induction false} ValueOfZeros(ns: seq<nat>)
    requires forall i :: 0 <= i < |ns| ==> ns[i] == 0
    ensures Value(ns) == 0
  {
    if ns != [] {
      ValueOfZeros(ns[1..]);
    }
  }

  /** Decoding inverts encoding, whatever follows. */
  lemma IntRoundTrip(s: seq<byte>, n: nat, rest: seq<byte>, most: nat)
    requires EncodesInt(s, n) && n < Power16(most) && 1 <= most <= 16
    ensures DecodedInt(s + rest, most) == Some((n, |s|))
  {
    var ns, all := Nibbles(n), s + rest;
    NibblesMean(n);
    NibblesLength(n, most);
    assert forall k: nat :: k / 2 < |s| ==> NibbleAt(all, k) == NibbleAt(s, k);
    assert NibbleAt(all, 0) == Layout(ns, 0);
    var count := NibbleAt(all, 0) + 1;
    if ns == [] {
      ValueOfZeros(DigitsOf(all, 1));
    } else {
      assert DigitsOf(all, count) == ns;
    }
  }

  /** A tag: seven bits to a byte, least significant first, with the top bit set on all bytes but the last. */
  function EncodedTag(tag: nat): (s: seq<byte>)
    ensures |s| > 0
  {
    if tag < 128 then [tag] else [128 + tag % 128] + EncodedTag(tag / 128)
  }

  function Power128(k: nat): nat {
    if k == 0 then 1 else 128 * Power128(k - 1)
  }

  lemma {:induction false} TagLengthBelow(tag: nat, k: nat)
    requires tag < Power128(k) && k > 0
    ensures |EncodedTag(tag)| <= k
  {
    if tag >= 128 {
      TagLengthBelow(tag / 128, k - 1);
    }
  }

  lemma TagLength(tag: nat)
    requires tag < WORD32
    ensures |EncodedTag(tag)| <= 5
  {
    assert Power128(5) == 128 * 128 * 128 * 128 * 128 * Power128(0) by {
      assert Power128(3) == 128 * 128 * 128;
      assert Power128(5) == 128 * 128 * Power128(3);
    }
    TagLengthBelow(tag, 5);
  }

  /** The loop of evtag_encode_tag. */
  method EncodeTagBytes(data: array<byte>, tag0: nat) returns (bytes: nat)
    requires tag0 < WORD32 && data.Length >= 5
    modifies data
    ensures bytes <= data.Length && data[..bytes] == EncodedTag(tag0)
  {
    TagLength(tag0);
    bytes := 0;
    var tag, more := tag0, true;
    while more
      invariant bytes + (if more then |EncodedTag(tag)| else 0) <= 5
      invariant data[..bytes] + (if more then EncodedTag(tag) else []) == EncodedTag(tag0)
      decreases if more then |EncodedTag(tag)| else 0
    {
      ghost var before, rest := data[..bytes], EncodedTag(tag);
      var lower := tag % 128;
      tag := tag / 128;
      if tag > 0 {
        lower := lower + 128;
      }
      data[bytes] := lower;
      bytes := bytes + 1;
      more := tag > 0;
      assert data[..bytes] == before + [lower as byte];
      assert rest == [lower as byte] + if more then EncodedTag(tag) else [];
      Assoc(before, [lower as byte], if more then EncodedTag(tag) else []);
    }
  }

  /** What decoding finds at the front of `s`: the number, before it is cut to 32 bits, and how many bytes it takes. */
  function DecodedTag(s: seq<byte>): (r: Option<(nat, nat)>)
    ensures r.Some? ==> r.value.1 <= |s|
  {
    if s == [] then None
    else if s[0] < 128 then Some((s[0], 1))
    else match DecodedTag(s[1..])
         case None => None
         case Some((high, n)) => Some((s[0] % 128 + 128 * high, n + 1))
  }

  lemma {:induction false} TagRoundTrip(tag: nat, rest: seq<byte>)
    ensures DecodedTag(EncodedTag(tag) + rest) == Some((tag, |EncodedTag(tag)|))
  {
    if tag >= 128 {
      TagRoundTrip(tag / 128, rest);
      assert (EncodedTag(tag) + rest)[1..] == EncodedTag(tag / 128) + rest;
    }
  }

  /** A number shifted left by seven bits, k times. */
  function Shifted(x: nat, k: nat): nat {
    if k == 0 then x else 128 * Shifted(x, k - 1)
  }

  lemma {:induction false} ShiftedSum(a: nat, b: nat, k: nat)
    ensures Shifted(a + 128 * b, k) == Shifted(a, k) + Shifted(b, k + 1)
  {
    if k > 0 {
      ShiftedSum(a, b, k - 1);
    }
  }

  /** What a tag is once its first `count` bytes are known to add up to `low`. */
  function Added(low: nat, count: nat, rest: Option<(nat, nat)>): Option<(nat, nat)> {
    match rest
    case None => None
    case Some((high, n)) => Some((low + Shifted(high, count), count + n))
  }

  lemma AddedOn(low: nat, count: nat, s: seq<byte>)
    requires s != [] && s[0] >= 128
    ensures Added(low, count, DecodedTag(s)) == Added(low + Shifted(s[0] % 128, count), count + 1, DecodedTag(s[1..]))
  {
    var rest := DecodedTag(s[1..]);
    if rest.Some? {
      ShiftedSum(s[0] % 128, rest.value.0, count);
    }
  }

  /** A tag of more than five bytes: the source would read beyond the bytes it has made contiguous. */
  predicate LongTag(s: seq<byte>) {
    |s| > 5 && forall i :: 0 <= i < 5 ==> s[i] >= 128
  }

  lemma AddMod(a: nat, b: nat)
    ensures (a % WORD32 + b) % WORD32 == (a + b) % WORD32
  {
  }

  /** One byte more of a tag: its last, or not. */
  lemma TagByte(data: seq<byte>, low: nat, count: nat)
    requires count < |data| && DecodedTag(data) == Added(low, count, DecodedTag(data[count..]))
    ensures var more := low + Shifted(data[count] % 128, count);
      DecodedTag(data) == if data[count] < 128 then Some((more, count + 1)) else Added(more, count + 1, DecodedTag(data[count + 1..]))
  {
    var rest := data[count..];
    assert rest[0] == data[count] && rest[1..] == data[count + 1..];
    if rest[0] >= 128 {
      AddedOn(low, count, rest);
    }
  }

  /** Seven bits more, in 32 bits. */
  method AddBits(number: nat, bits: nat, count: nat, ghost low: nat) returns (sum: nat, ghost low': nat)
    requires number == low % WORD32
    ensures low' == low + Shifted(bits, count) && sum == low' % WORD32
  {
    var more := Shifted(bits, count);
    AddMod(low, more);
    sum, low' := (number + more) % WORD32, low + more;
  }

  /** The loop of decode_tag_internal over the first bytes of the buffer; the number is kept in 32 bits. */
  method CollectTag(data: seq<byte>, len: nat) returns (done: bool, number: nat, count: nat)
    requires |data| == (if len < 5 then len else 5)
    requires len > 5 ==> exists i :: 0 <= i < 5 && data[i] < 128
    ensures done <==> DecodedTag(data).Some?
    ensures done ==> number == DecodedTag(data).value.0 % WORD32 && count == DecodedTag(data).value.1 <= |data|
  {
    number, count, done := 0, 0, false;
    ghost var low: nat := 0;
    assert data[0..] == data;
    assert Added(0, 0, DecodedTag(data)) == DecodedTag(data);
    while count < len
      invariant count <= |data| && number == low % WORD32
      invariant forall i :: 0 <= i < count ==> data[i] >= 128
      invariant DecodedTag(data) == Added(low, count, DecodedTag(data[count..]))
      decreases len - count
    {
      var lower: int := data[count];
      TagByte(data, low, count);
      number, low := AddBits(number, lower % 128, count, low);
      count := count + 1;
      if lower < 128 {
        return true, number, count;
      }
    }
  }

  /** A terminating byte among the first ones makes a tag. */
  lemma {:induction false} HasEnd(s: seq<byte>, i: nat)
    requires i < |s| && s[i] < 128
    ensures DecodedTag(s).Some?
  {
    if s[0] >= 128 {
      HasEnd(s[1..], i - 1);
    }
  }

  /** A tag is the same whatever follows it. */
  lemma {:induction false} TagOfPrefix(s: seq<byte>, k: nat)
    requires k <= |s| && DecodedTag(s[..k]).Some?
    ensures DecodedTag(s) == DecodedTag(s[..k])
  {
    if s[0] >= 128 {
      assert s[..k][1..] == s[1..][..k - 1];
      TagOfPrefix(s[1..], k - 1);
    }
  }

  /** So five bytes are enough to look at. */
  lemma FiveBytes(s: seq<byte>)
    requires !LongTag(s)
    ensures var k := if |s| < 5 then |s| else 5;
      && DecodedTag(s[..k]) == DecodedTag(s)
      && (|s| > 5 ==> exists i :: 0 <= i < 5 && s[..k][i] < 128)
  {
    if |s| > 5 {
      var i :| 0 <= i < 5 && s[i] < 128;
      assert s[..5][i] < 128;
      HasEnd(s[..5], i);
      TagOfPrefix(s, 5);
    } else {
      assert s[..|s|] == s;
    }
  }

  /** The bytes of an encoded integer. */
  function EncodedInt(n: nat): (s: seq<byte>)
  {
    var ns := Nibbles(n);
    seq(|ns| / 2 + 1, j requires j >= 0 => Layout(ns, 2 * j) % 16 * 16 + Layout(ns, 2 * j + 1) % 16)
  }

  lemma Packed(a: nat, b: nat, c: byte)
    requires a < 16 && b < 16 && c == a * 16 + b
    ensures NibbleAt([c], 0) == a && NibbleAt([c], 1) == b
  {
  }

  lemma LayoutSmall(ns: seq<nat>, k: nat)
    requires |ns| <= 16 && forall i :: 0 <= i < |ns| ==> ns[i] < 16
    ensures Layout(ns, k) < 16
  {
  }

  /** Byte j of a packed layout gives the layout back. */
  lemma PackedAt(ns: seq<nat>, s: seq<byte>, j: nat)
    requires |ns| <= 16 && (forall i :: 0 <= i < |ns| ==> ns[i] < 16) && j < |s|
    requires s[j] == Layout(ns, 2 * j) % 16 * 16 + Layout(ns, 2 * j + 1) % 16
    ensures NibbleAt(s, 2 * j) == Layout(ns, 2 * j) && NibbleAt(s, 2 * j + 1) == Layout(ns, 2 * j + 1)
  {
    var a, b := Layout(ns, 2 * j), Layout(ns, 2 * j + 1);
    LayoutSmall(ns, 2 * j);
    LayoutSmall(ns, 2 * j + 1);
    Packed(a, b, s[j]);
    assert 2 * j / 2 == j && (2 * j + 1) / 2 == j;
  }

  lemma EncodedIntEncodes(n: nat)
    requires n < WORD64
    ensures EncodesInt(EncodedInt(n), n)
  {
    var ns, e := Nibbles(n), EncodedInt(n);
    NibblesMean(n);
    WordsHaveNibbles();
    NibblesLength(n, 16);
    forall k: nat | k / 2 < |e|
      ensures NibbleAt(e, k) == Layout(ns, k)
    {
      PackedAt(ns, e, k / 2);
      assert k == 2 * (k / 2) || k == 2 * (k / 2) + 1;
    }
  }

  /** What the bytes of an encoded integer say: how many hexadecimal digits there are, and the lowest of them. */
  lemma IntSays(s: seq<byte>, n: nat)
    requires EncodesInt(s, n)
    ensures s != [] && Power16(s[0] / 16) <= Max1(n) && n < Power16(s[0] / 16 + 1)
    ensures s[0] % 16 == n % 16 && (|s| > 1 ==> s[1] / 16 == n / 16 % 16 && s[1] % 16 == n / 256 % 16)
  {
    var ns := Nibbles(n);
    assert NibbleAt(s, 0) == Layout(ns, 0) && NibbleAt(s, 1) == Layout(ns, 1);
    NibblesCount(n);
    if n > 0 {
      assert ns[1..] == Nibbles(n / 16);
      if |s| > 1 {
        assert NibbleAt(s, 2) == Layout(ns, 2) && NibbleAt(s, 3) == Layout(ns, 3);
        assert ns[1..][1..] == Nibbles(n / 16 / 16);
        assert n / 16 / 16 == n / 256;
      }
    }
  }

  function Max1(n: nat): nat {
    if n == 0 then 1 else n
  }

  lemma {:induction false} NibblesCount(n: nat)
    ensures n > 0 ==> |Nibbles(n)| > 0 && Power16(|Nibbles(n)| - 1) <= n < Power16(|Nibbles(n)|)
  {
    if n > 0 {
      NibblesCount(n / 16);
    }
  }

  /** 0x66 as a tag is one byte; 0x166 is E6 02, unlike in the comment that explains it. */
  lemma TagExamples()
    ensures EncodedTag(0x66) == [0x66] && EncodedTag(0x166) == [0xe6, 0x02]
    ensures DecodedTag([0xe6, 0x02]) == Some((0x166, 2))
  {
    assert EncodedTag(2) == [2];
    var s: seq<byte> := [0xe6, 0x02];
    assert s[1..] == [2];
    assert DecodedTag([2]) == Some((2, 1));
  }

  /** As an integer 0xabc takes two bytes, 2C BA. */
  lemma IntExample()
    ensures EncodesInt([0x2c, 0xba], 0xabc)
  {
    assert Nibbles(0xa) == [0xa];
    assert Nibbles(0xab) == [0xb, 0xa];
    assert Nibbles(0xabc) == [0xc, 0xb, 0xa];
    var s: seq<byte> := [0x2c, 0xba];
    forall k: nat | k / 2 < |s|
      ensures NibbleAt(s, k) == Layout([0xc, 0xb, 0xa], k)
    {
      assert k == 0 || k == 1 || k == 2 || k == 3;
    }
  }

  /** There is only one encoding. */
  lemma OneEncoding(s: seq<byte>, t: seq<byte>, n: nat)
    requires EncodesInt(s, n) && EncodesInt(t, n)
    ensures s == t
  {
    forall j | 0 <= j < |s|
      ensures s[j] == t[j]
    {
      assert NibbleAt(s, 2 * j) == NibbleAt(t, 2 * j) && NibbleAt(s, 2 * j + 1) == NibbleAt(t, 2 * j + 1);
    }
  }
}
