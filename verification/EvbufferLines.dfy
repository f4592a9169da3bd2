/** Finding line ends in an evbuffer and reading lines from it. */
module EvbufferLines {
  import opened Bytes
  import opened Chains
  import opened Lists
  import opened EvbufferDrain
  import opened EvbufferSearch

  const CR: byte := 13
  const LF: byte := 10
  const CHUNK_SZ: nat := 128

  datatype EolStyle = EolAny | EolCrlf | EolCrlfStrict | EolLf

  /** A byte at which the scan for a line end stops: LF, and CR too when `any`. */
  predicate Stop(b: byte, any: bool) {
    b == LF || (any && b == CR)
  }

  /** No byte from `lo` on and before `hi` stops the scan. */
  ghost predicate NoStop(c: seq<byte>, any: bool, lo: int, hi: int) {
    forall i :: 0 <= i < |c| && lo <= i < hi ==> !Stop(c[i], any)
  }

  /** A stretch whose first k bytes are neither CR nor LF does not stop the scan in them. */
  lemma NoStopOn(s: seq<byte>, at: nat, t: seq<byte>, k: nat)
    requires at + |t| <= |s| && t == s[at..at + |t|] && NoStop(s, true, 0, at)
    requires k <= |t| && CR !in t[..k] && LF !in t[..k]
    ensures NoStop(s, true, 0, at + k) && (k < |t| ==> s[at + k] == t[k])
  {
    forall i | at <= i < at + k
      ensures !Stop(s[i], true)
    {
      assert s[i] == t[..k][i - at];
    }
  }

  /** What is not in the front of a stretch is not in a shorter front. */
  lemma FrontLacks(t: seq<byte>, b: byte, m: nat, k: nat)
    requires k <= m <= |t| && b !in t[..m]
    ensures b !in t[..k]
  {
    assert t[..k] <= t[..m];
  }

  /** find_eol_char: both bytes are looked for in one stretch of CHUNK_SZ after the other. */
  method FindEolChar(s: seq<byte>) returns (i: int)
    ensures i == -1 || 0 <= i < |s|
    ensures i == -1 ==> NoStop(s, true, 0, |s|)
    ensures i >= 0 ==> Stop(s[i], true) && NoStop(s, true, 0, i)
  {
    var at: nat := 0;
    while at < |s|
      invariant NoStop(s, true, 0, at)
    {
      var chunk: nat := if at + CHUNK_SZ < |s| then CHUNK_SZ else |s| - at;
      var t := s[at..at + chunk];
      var cr := FindByte(t, CR);
      var lf := FindByte(t, LF);
      assert t[..chunk] == t;
      if cr >= 0 {
        if lf >= 0 && lf < cr {
          FrontLacks(t, CR, cr, lf);
          NoStopOn(s, at, t, lf);
          return at + lf;
        }
        FrontLacks(t, LF, if lf >= 0 then lf else chunk, cr);
        NoStopOn(s, at, t, cr);
        return at + cr;
      } else if lf >= 0 {
        FrontLacks(t, CR, chunk, lf);
        NoStopOn(s, at, t, lf);
        return at + lf;
      }
      NoStopOn(s, at, t, chunk);
      at := at + CHUNK_SZ;
    }
    return -1;
  }

  /** memchr for LF, or find_eol_char, in chunk k from offset `lo` on. */
  method StopIn(ghost cs: seq<Chain>, ghost vs: seq<seq<byte>>, ghost k: nat, chain: Chain, lo: nat, any: bool)
    returns (i: int)
    requires Holds(cs, vs) && k < |cs| && chain == cs[k] && lo <= |vs[k]|
    ensures chain.off == |vs[k]|
    ensures i == -1 ==> NoStop(vs[k], any, lo, |vs[k]|)
    ensures i != -1 ==> 0 <= i && lo + i < |vs[k]| && Stop(vs[k][lo + i], any) && NoStop(vs[k], any, lo, lo + i)
  {
    assert Stores(chain, vs[k]);
    var s := chain.buffer[chain.misalign + lo..chain.misalign + chain.off];
    assert forall j :: lo <= j < |vs[k]| ==> vs[k][j] == s[j - lo];
    if any {
      i := FindEolChar(s);
    } else {
      i := FindByte(s, LF);
      assert i >= 0 ==> forall j :: 0 <= j < i ==> s[j] == s[..i][j];
    }
  }

  /** Bytes of chunk k are bytes of the content. */
  lemma NoStopIn(vs: seq<seq<byte>>, k: nat, any: bool, lo: nat, hi: nat)
    requires k < |vs| && hi <= |vs[k]| && NoStop(vs[k], any, lo, hi)
    ensures NoStop(Flatten(vs), any, Offset(vs, k) + lo, Offset(vs, k) + hi)
    ensures forall i :: 0 <= i < |vs[k]| ==> Offset(vs, k) + i < |Flatten(vs)| && Flatten(vs)[Offset(vs, k) + i] == vs[k][i]
  {
    OffsetStep(vs, k);
    assert forall i :: 0 <= i < |vs[k]| ==> Flatten(vs)[Offset(vs, k)..Offset(vs, k + 1)][i] == vs[k][i];
  }

  /** The scan of the chunk where `p` stands; without a line end in it, on to the next chunk. */
  method NextStop(buf: Evbuffer, ghost cs: seq<Chain>, ghost vs: seq<seq<byte>>, p: EvbufferPtr, ghost k: nat, chain: Chain, any: bool)
    returns (here: bool, q: EvbufferPtr)
    requires Linked(buf, cs) && Holds(cs, vs) && PtrAt(cs, vs, p, k) && chain == cs[k]
    ensures p.pos <= q.pos <= |Flatten(vs)| && NoStop(Flatten(vs), any, p.pos, q.pos)
    ensures here ==> PtrAt(cs, vs, q, k) && q.posInChain < |vs[k]|
    ensures here ==> q.pos < |Flatten(vs)| && Stop(Flatten(vs)[q.pos], any)
    ensures !here ==> Standing(cs, vs, q, k + 1)
  {
    var lo := p.posInChain;
    OffsetStep(vs, k);
    OffsetEnd(vs);
    var i := StopIn(cs, vs, k, chain, lo, any);
    NoStopIn(vs, k, any, lo, if i >= 0 then lo + i else |vs[k]|);
    if i >= 0 {
      here, q := true, EvbufferPtr(p.pos + i, chain, lo + i);
    } else {
      here, q := false, EvbufferPtr(p.pos + (chain.off - lo), chain.next, 0);
    }
  }

  /** evbuffer_strchr for LF, and evbuffer_find_eol_char: the first byte at or behind `it` that ends a line. */
  method ScanTo(buf: Evbuffer, ghost cs: seq<Chain>, ghost vs: seq<seq<byte>>, it: EvbufferPtr, ghost k0: nat, any: bool)
    returns (found: bool, r: EvbufferPtr, ghost k: nat)
    requires Rep(buf, cs, vs) && Standing(cs, vs, it, k0)
    ensures it.pos <= r.pos <= |Flatten(vs)| && NoStop(Flatten(vs), any, it.pos, r.pos)
    ensures found ==> PtrAt(cs, vs, r, k) && r.posInChain < |vs[k]| && r.pos < |Flatten(vs)|
    ensures found ==> Stop(Flatten(vs)[r.pos], any)
    ensures !found ==> r.pos == |Flatten(vs)|
  {
    r, k, found := it, k0, false;
    if k0 < |cs| {
      OffsetStep(vs, k0);
    }
    while r.chain != null && !found
      invariant k <= |cs| && Standing(cs, vs, r, k) && it.pos <= r.pos <= |Flatten(vs)|
      invariant NoStop(Flatten(vs), any, it.pos, r.pos)
      invariant found ==> k < |cs| && r.posInChain < |vs[k]| && r.pos < |Flatten(vs)| && Stop(Flatten(vs)[r.pos], any)
      decreases |cs| - k, if found then 0 else 1
    {
      OffsetStep(vs, k);
      found, r := NextStop(buf, cs, vs, r, k, r.chain, any);
      if !found {
        k := k + 1;
      }
    }
  }

  /** Bytes `lo` up to `hi` are all CR or LF. */
  ghost predicate AllStop(c: seq<byte>, lo: int, hi: int) {
    0 <= lo <= hi <= |c| && forall i :: lo <= i < hi ==> Stop(c[i], true)
  }

  /** Exactly `n` bytes from position p on are CR or LF. */
  ghost predicate SpanIs(c: seq<byte>, p: nat, n: nat) {
    AllStop(c, p, p + n) && (p + n < |c| ==> !Stop(c[p + n], true))
  }

  /** The inner loop of evbuffer_strspn, over one chunk. */
  method SpnIn(ghost cs: seq<Chain>, ghost vs: seq<seq<byte>>, ghost k: nat, chain: Chain, lo: nat) returns (stopped: bool, n: nat)
    requires Holds(cs, vs) && k < |cs| && chain == cs[k] && lo <= |vs[k]|
    ensures AllStop(vs[k], lo, lo + n)
    ensures if stopped then lo + n < |vs[k]| && !Stop(vs[k][lo + n], true) else lo + n == |vs[k]|
  {
    assert Stores(chain, vs[k]);
    n := 0;
    while lo + n < chain.off
      invariant AllStop(vs[k], lo, lo + n)
    {
      assert vs[k][lo + n] == chain.buffer[chain.misalign + lo + n];
      if !Stop(chain.buffer[chain.misalign + lo + n], true) {
        return true, n;
      }
      n := n + 1;
    }
    stopped := false;
  }

  lemma AllStopIn(vs: seq<seq<byte>>, k: nat, p: int, lo: nat, n: nat)
    requires k < |vs| && AllStop(vs[k], lo, lo + n)
    requires AllStop(Flatten(vs), p, Offset(vs, k) + lo)
    ensures AllStop(Flatten(vs), p, Offset(vs, k) + lo + n)
    ensures lo + n < |vs[k]| ==> Offset(vs, k) + lo + n < |Flatten(vs)| && Flatten(vs)[Offset(vs, k) + lo + n] == vs[k][lo + n]
  {
    OffsetStep(vs, k);
    NoStopIn(vs, k, true, 0, 0);
    forall i | p <= i < Offset(vs, k) + lo + n
      ensures Stop(Flatten(vs)[i], true)
    {
      if i >= Offset(vs, k) + lo {
        assert Flatten(vs)[Offset(vs, k) + (i - Offset(vs, k))] == vs[k][i - Offset(vs, k)];
      }
    }
  }

  /** evbuffer_strspn with "\r\n". */
  method StrSpn(buf: Evbuffer, ghost cs: seq<Chain>, ghost vs: seq<seq<byte>>, ptr: EvbufferPtr, ghost k0: nat) returns (count: nat)
    requires Rep(buf, cs, vs) && PtrAt(cs, vs, ptr, k0)
    ensures SpanIs(Flatten(vs), ptr.pos, count)
  {
    var chain := ptr.chain;
    var i: nat := ptr.posInChain;
    ghost var k, p: nat := k0, ptr.pos;
    OffsetStep(vs, k0);
    count := 0;
    while true
      invariant k < |cs| && chain == cs[k] && i <= |vs[k]| && Offset(vs, k) + i == p + count
      invariant AllStop(Flatten(vs), p, p + count)
      decreases |cs| - k
    {
      var stopped, n := SpnIn(cs, vs, k, chain, i);
      AllStopIn(vs, k, p, i, n);
      count := count + n;
      if stopped {
        return;
      }
      OffsetStep(vs, k);
      OffsetEnd(vs);
      if chain.next == null {
        return;
      }
      chain, k, i := chain.next, k + 1, 0;
    }
  }

  /** A line end of the given style begins at position p. */
  predicate IsEol(c: seq<byte>, style: EolStyle, p: nat) {
    p < |c| &&
    match style
    case EolAny => Stop(c[p], true)
    case EolCrlfStrict => MatchAt(c, [CR, LF], p)
    case EolCrlf => c[p] == LF || MatchAt(c, [CR, LF], p)
    case EolLf => c[p] == LF
  }

  /** How long the line end at position p is. */
  ghost predicate EolLength(c: seq<byte>, style: EolStyle, p: nat, n: nat) {
    p < |c| &&
    match style
    case EolAny => SpanIs(c, p, n)
    case EolCrlfStrict => n == 2
    case EolCrlf => n == if c[p] == LF then 1 else 2
    case EolLf => n == 1
  }

  ghost predicate NoEol(c: seq<byte>, style: EolStyle, lo: int, hi: int) {
    forall i: nat :: lo <= i < hi ==> !IsEol(c, style, i)
  }

  /** What evbuffer_search_eol finds: the first line end from `start` on, and its length. */
  ghost predicate FirstEol(c: seq<byte>, style: EolStyle, start: int, pos: int, n: nat) {
    if pos >= 0 then start <= pos && IsEol(c, style, pos) && EolLength(c, style, pos, n) && NoEol(c, style, start, pos)
    else pos == -1 && n == 0 && NoEol(c, style, start, |c|)
  }

  /** What the four styles make of "a", CR, LF, LF. */
  lemma StylesDiffer()
    ensures var c: seq<byte> := [97, 13, 10, 10];
      && FirstEol(c, EolAny, 0, 1, 3) && FirstEol(c, EolCrlf, 0, 1, 2) && FirstEol(c, EolCrlfStrict, 0, 1, 2)
      && FirstEol(c, EolLf, 0, 2, 1) && FirstEol(c, EolCrlf, 2, 2, 1) && FirstEol(c, EolCrlfStrict, 2, -1, 0)
  {
    var c: seq<byte> := [97, 13, 10, 10];
    assert c[1..3] == [13, 10] && c[2..4] == [10, 10] && c[0..2] == [97, 13];
    assert !IsEol(c, EolAny, 0) && !IsEol(c, EolCrlf, 0) && !IsEol(c, EolCrlfStrict, 0) && !IsEol(c, EolLf, 0);
    assert !IsEol(c, EolLf, 1) && !IsEol(c, EolCrlfStrict, 2) && !IsEol(c, EolCrlfStrict, 3);
  }

  /** There is only one first line end, and its length is fixed. */
  lemma FirstEolIsOne(c: seq<byte>, style: EolStyle, start: int, p: int, n: nat, q: int, m: nat)
    requires start >= 0 && FirstEol(c, style, start, p, n) && FirstEol(c, style, start, q, m)
    ensures p == q && n == m
  {
    assert p >= 0 ==> IsEol(c, style, p);
    assert q >= 0 ==> IsEol(c, style, q);
    assert style == EolAny && p >= 0 && q >= 0 && p == q ==> SpanIs(c, p, n) && SpanIs(c, p, m);
  }

  /** A CRLF-style line end begins with CR or LF. */
  lemma EolStops(c: seq<byte>, i: nat)
    requires IsEol(c, EolCrlf, i)
    ensures Stop(c[i], true)
  {
    if c[i] != LF {
      assert c[i..i + 2][0] == CR;
    }
  }

  /** So none begins where no CR or LF stands, nor where only a bare CR does. */
  lemma NoStopNoEol(c: seq<byte>, from: nat, lo: nat, hi: nat)
    requires NoEol(c, EolCrlf, from, lo) && NoStop(c, true, lo, hi) && hi <= |c|
    ensures NoEol(c, EolCrlf, from, hi)
    ensures hi < |c| && !IsEol(c, EolCrlf, hi) ==> NoEol(c, EolCrlf, from, hi + 1)
  {
    forall i: nat | from <= i < hi
      ensures !IsEol(c, EolCrlf, i)
    {
      if i >= lo && IsEol(c, EolCrlf, i) {
        EolStops(c, i);
      }
    }
  }

  /** evbuffer_getchr. */
  method GetChr(ghost cs: seq<Chain>, ghost vs: seq<seq<byte>>, it: EvbufferPtr, ghost k: nat) returns (b: byte)
    requires Holds(cs, vs) && PtrAt(cs, vs, it, k) && it.posInChain < |vs[k]|
    ensures it.pos < |Flatten(vs)| && b == Flatten(vs)[it.pos]
  {
    assert Stores(it.chain, vs[k]);
    NoStopIn(vs, k, true, 0, 0);
    b := it.chain.buffer[it.chain.misalign + it.posInChain];
    assert b == vs[k][it.posInChain];
  }

  /** One round of the EVBUFFER_EOL_CRLF loop, at a CR or LF: is this the line end, and how long? */
  method CrlfHere(buf: Evbuffer, ghost cs: seq<Chain>, ghost vs: seq<seq<byte>>, it: EvbufferPtr, ghost k: nat) returns (n: nat)
    requires Rep(buf, cs, vs) && PtrAt(cs, vs, it, k) && it.posInChain < |vs[k]|
    ensures it.pos < |Flatten(vs)|
    ensures if n == 0 then !IsEol(Flatten(vs), EolCrlf, it.pos)
            else IsEol(Flatten(vs), EolCrlf, it.pos) && EolLength(Flatten(vs), EolCrlf, it.pos, n)
  {
    var here := GetChr(cs, vs, it, k);
    if here == LF {
      return 1;
    }
    var r := PtrMemcmp(buf, cs, vs, it, [CR, LF], k);
    n := if r == 0 then 2 else 0;
  }

  /** The EVBUFFER_EOL_CRLF loop. It ends because each round is nearer to the end of the buffer. */
  method SearchCrlf(buf: Evbuffer, ghost cs: seq<Chain>, ghost vs: seq<seq<byte>>, start: EvbufferPtr, ghost ks: nat)
    returns (it: EvbufferPtr, extra: nat)
    requires Rep(buf, cs, vs) && Standing(cs, vs, start, ks)
    ensures FirstEol(Flatten(vs), EolCrlf, start.pos, it.pos, extra) && (it.pos >= 0 ==> Denotes(cs, vs, it))
  {
    ghost var k, c := ks, Flatten(vs);
    it, extra := start, 0;
    if ks < |cs| {
      OffsetStep(vs, ks);
    }
    OffsetEnd(vs);
    while true
      invariant Standing(cs, vs, it, k) && start.pos <= it.pos <= |c| && NoEol(c, EolCrlf, start.pos, it.pos)
      decreases |c| - it.pos
    {
      ghost var from := it.pos;
      var found;
      found, it, k := ScanTo(buf, cs, vs, it, k, true);
      NoStopNoEol(c, start.pos, from, it.pos);
      if !found {
        return NOT_FOUND, 0;
      }
      extra := CrlfHere(buf, cs, vs, it, k);
      if extra > 0 {
        return;
      }
      found, it := PtrAdd(buf, cs, vs, it, 1, k);
      if !found {
        return NOT_FOUND, 0;
      }
      k :| PtrAt(cs, vs, it, k) && it.posInChain < |vs[k]|;
    }
  }

  /** evbuffer_search_eol. */
  method SearchEol(buf: Evbuffer, ghost cs: seq<Chain>, ghost vs: seq<seq<byte>>, start: Option<EvbufferPtr>, ghost ks: nat, style: EolStyle)
    returns (it: EvbufferPtr, eolLen: nat)
    requires Rep(buf, cs, vs)
    requires start.Some? ==> Standing(cs, vs, start.value, ks)
    ensures FirstEol(Flatten(vs), style, if start.Some? then start.value.pos else 0, it.pos, eolLen)
    ensures it.pos >= 0 ==> Denotes(cs, vs, it)
  {
    var from := Beginning(buf, cs, vs);
    ghost var k := 0;
    if start.Some? {
      from, k := start.value, ks;
    }
    var found;
    match style {
      case EolAny =>
        found, it, k := ScanTo(buf, cs, vs, from, k, true);
        if !found {
          return NOT_FOUND, 0;
        }
        eolLen := StrSpn(buf, cs, vs, it, k);
      case EolCrlfStrict =>
        it := SearchRange(buf, cs, vs, [CR, LF], Some(from), k, None, 0);
        eolLen := if it.pos < 0 then 0 else 2;
      case EolCrlf =>
        it, eolLen := SearchCrlf(buf, cs, vs, from, k);
      case EolLf =>
        found, it, k := ScanTo(buf, cs, vs, from, k, false);
        if !found {
          return NOT_FOUND, 0;
        }
        eolLen := 1;
    }
  }

  lemma TermFits(c: seq<byte>, style: EolStyle, p: nat, n: nat)
    requires IsEol(c, style, p) && EolLength(c, style, p, n)
    ensures p + n <= |c|
  {
  }

  /** The copy that evbuffer_readln makes of a line of n bytes. */
  method TakeLine(buf: Evbuffer, ghost cs: seq<Chain>, ghost vs: seq<seq<byte>>, n: nat)
    returns (line: array<byte>, ghost cs': seq<Chain>, ghost vs': seq<seq<byte>>)
    requires Rep(buf, cs, vs) && n <= |Flatten(vs)|
    modifies buf, Members(cs)
    ensures Rep(buf, cs', vs') && Members(cs') <= Members(cs)
    ensures fresh(line) && line.Length == n + 1 && line[n] == 0
    ensures line[..n] + Flatten(vs') == Flatten(vs)
  {
    line := new byte[n + 1];
    var got;
    got, cs', vs' := Remove(buf, cs, vs, line, n);
    line[n] := 0;
  }

  lemma LineThenRest(c: seq<byte>, line: seq<byte>, rest: seq<byte>, n: nat)
    requires line + rest == c && n <= |rest|
    ensures line == c[..|line|] && rest[n..] == c[|line| + n..]
  {
  }

  /** The line, and the line end behind it. */
  method TakeBoth(buf: Evbuffer, ghost cs: seq<Chain>, ghost vs: seq<seq<byte>>, n: nat, extraDrain: nat)
    returns (line: array<byte>, ghost cs': seq<Chain>, ghost vs': seq<seq<byte>>)
    requires Rep(buf, cs, vs) && n + extraDrain <= |Flatten(vs)|
    modifies buf, Members(cs)
    ensures Rep(buf, cs', vs') && Members(cs') <= Members(cs)
    ensures line.Length == n + 1 && line[n] == 0
    ensures line[..n] == Flatten(vs)[..n] && Flatten(vs') == Flatten(vs)[n + extraDrain..]
  {
    line, cs', vs' := TakeLine(buf, cs, vs, n);
    LineThenRest(Flatten(vs), line[..n], Flatten(vs'), extraDrain);
    cs', vs' := Drain(buf, cs', vs', extraDrain);
  }

  /** evbuffer_readln: the line, its bytes copied out and closed with a NUL; or null. */
  method Readln(buf: Evbuffer, ghost cs: seq<Chain>, ghost vs: seq<seq<byte>>, style: EolStyle)
    returns (line: array?<byte>, nRead: nat, ghost eolLen: nat, ghost cs': seq<Chain>, ghost vs': seq<seq<byte>>)
    requires Rep(buf, cs, vs)
    modifies buf, Members(cs)
    ensures Rep(buf, cs', vs') && Members(cs') <= Members(cs)
    ensures FirstEol(Flatten(vs), style, 0, if line == null then -1 else nRead, eolLen)
    ensures line == null ==> nRead == 0 && vs' == vs
    ensures line != null ==> line.Length == nRead + 1 && line[nRead] == 0
    ensures line != null ==> nRead + eolLen <= |Flatten(vs)| && line[..nRead] == Flatten(vs)[..nRead]
    ensures line != null ==> Flatten(vs') == Flatten(vs)[nRead + eolLen..]
  {
    ghost var c := Flatten(vs);
    var it, extraDrain := SearchEol(buf, cs, vs, None, 0, style);
    eolLen, cs', vs' := extraDrain, cs, vs;
    if it.pos < 0 {
      return null, 0, 0, cs, vs;
    }
    TermFits(c, style, it.pos, extraDrain);
    nRead := it.pos;
    line, cs', vs' := TakeBoth(buf, cs, vs, nRead, extraDrain);
  }

  /** The lines, each followed by LF. */
  function Unsplit(lines: seq<seq<byte>>): seq<byte> {
    if lines == [] then [] else Unsplit(lines[..|lines| - 1]) + lines[|lines| - 1] + [LF]
  }

  lemma UnsplitOneMore(c: seq<byte>, lines: seq<seq<byte>>, line: seq<byte>, rest: seq<byte>)
    requires Unsplit(lines) + rest == c && |line| < |rest| && line == rest[..|line|] && rest[|line|] == LF
    ensures Unsplit(lines + [line]) + rest[|line| + 1..] == c
  {
    var all := lines + [line];
    assert all[..|all| - 1] == lines;
    assert rest == line + [LF] + rest[|line| + 1..];
    Assoc(Unsplit(lines), line, [LF]);
    Assoc(Unsplit(lines), line + [LF], rest[|line| + 1..]);
  }

  lemma PlainLine(c: seq<byte>, line: seq<byte>)
    requires |line| <= |c| && line == c[..|line|] && NoEol(c, EolLf, 0, |line|)
    ensures LF !in line
  {
    forall i | 0 <= i < |line|
      ensures line[i] != LF
    {
      assert !IsEol(c, EolLf, i);
    }
  }

  /** A caller that reads LF-terminated lines until there is none left. */
  method ReadAllLines(buf: Evbuffer, ghost cs: seq<Chain>, ghost vs: seq<seq<byte>>)
    returns (lines: seq<seq<byte>>, ghost cs': seq<Chain>, ghost vs': seq<seq<byte>>)
    requires Rep(buf, cs, vs)
    modifies buf, Members(cs)
    ensures Rep(buf, cs', vs')
    ensures Unsplit(lines) + Flatten(vs') == Flatten(vs)
    ensures LF !in Flatten(vs') && forall i :: 0 <= i < |lines| ==> LF !in lines[i]
  {
    lines, cs', vs' := [], cs, vs;
    var more := true;
    while more
      invariant Rep(buf, cs', vs') && Members(cs') <= Members(cs)
      invariant Unsplit(lines) + Flatten(vs') == Flatten(vs)
      invariant forall i :: 0 <= i < |lines| ==> LF !in lines[i]
      invariant !more ==> LF !in Flatten(vs')
      decreases |Flatten(vs')|, if more then 1 else 0
    {
      ghost var c := Flatten(vs');
      var line, n;
      ghost var eolLen;
      line, n, eolLen, cs', vs' := Readln(buf, cs', vs', EolLf);
      if line == null {
        PlainLine(c, c);
        more := false;
      } else {
        PlainLine(c, line[..n]);
        UnsplitOneMore(Flatten(vs), lines, line[..n], c);
        lines := lines + [line[..n]];
      }
    }
  }
}
