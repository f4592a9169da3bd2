/** Domain names in DNS messages: parsing them, and writing them with compression. */
module DnsNames {
  import opened Bytes

  const DOT: byte := 46
  const MAX_LABEL: nat := 63
  const MAX_LABELS: nat := 128
  const MAX_NAME: nat := 255
  const MAX_POINTER: nat := 0x4000

  /** Where the pointer that starts at position p leads. */
  function Target(packet: seq<byte>, p: nat): nat
    requires p + 1 < |packet|
  {
    var high: int := packet[p];
    high % 64 * 256 + packet[p + 1]
  }

  /**
   * What RFC 1035, section 4.1.4, calls the name at position p: its labels, read along `jumps`
   * pointers. A length byte with either of its top two bits set starts a pointer.
   */
  ghost predicate Derives(packet: seq<byte>, p: nat, labels: seq<seq<byte>>, jumps: nat)
    decreases jumps, |labels|
  {
    p < |packet| &&
    var b := packet[p];
    if b == 0 then labels == [] && jumps == 0
    else if b > MAX_LABEL then p + 1 < |packet| && jumps > 0 && Derives(packet, Target(packet, p), labels, jumps - 1)
    else p + 1 + b <= |packet| && labels != [] && labels[0] == packet[p + 1..p + 1 + b]
         && Derives(packet, p + 1 + b, labels[1..], jumps)
  }

  /** The position behind the name that stands at p, wherever its pointer leads. */
  function EndOf(packet: seq<byte>, p: nat): nat
    decreases |packet| - p
  {
    if p >= |packet| then p
    else if packet[p] == 0 then p + 1
    else if packet[p] > MAX_LABEL then p + 2
    else EndOf(packet, p + 1 + packet[p])
  }

  /** The labels with a dot between each two. */
  function Joined(labels: seq<seq<byte>>): seq<byte> {
    if labels == [] then []
    else if |labels| == 1 then labels[0]
    else labels[0] + [DOT] + Joined(labels[1..])
  }

  lemma {:induction false} JoinedSnoc(labels: seq<seq<byte>>, word: seq<byte>)
    requires labels != []
    ensures Joined(labels + [word]) == Joined(labels) + [DOT] + word
  {
    if |labels| > 1 {
      assert (labels + [word])[1..] == labels[1..] + [word];
      JoinedSnoc(labels[1..], word);
      Assoc(labels[0] + [DOT], Joined(labels[1..]), [DOT]);
      Assoc(labels[0] + [DOT], Joined(labels[1..]) + [DOT], word);
    } else {
      assert (labels + [word])[1..] == [word];
    }
  }

  lemma {:induction false} JoinedPrefix(labels: seq<seq<byte>>, k: nat)
    requires k <= |labels|
    ensures |Joined(labels[..k])| <= |Joined(labels)|
    decreases |labels| - k
  {
    if k < |labels| {
      JoinedPrefix(labels, k + 1);
      assert labels[..k + 1] == labels[..k] + [labels[k]];
      if k > 0 {
        JoinedSnoc(labels[..k], labels[k]);
      }
    } else {
      assert labels[..k] == labels;
    }
  }

  /** A name is what its bytes say: there is only one reading of it. */
  lemma {:induction false} OneReading(packet: seq<byte>, p: nat, a: seq<seq<byte>>, j: nat, b: seq<seq<byte>>, k: nat)
    requires Derives(packet, p, a, j) && Derives(packet, p, b, k)
    ensures a == b && j == k
    decreases j, |a|
  {
    if packet[p] > MAX_LABEL {
      OneReading(packet, Target(packet, p), a, j - 1, b, k - 1);
    } else if packet[p] != 0 {
      OneReading(packet, p + 1 + packet[p], a[1..], j, b[1..], k);
      assert a == [a[0]] + a[1..] && b == [b[0]] + b[1..];
    }
  }

  /** A length byte of 1 to 63 stands before a label of as many bytes, and the name goes on behind it. */
  lemma LabelOnWire(packet: seq<byte>, p: nat, labels: seq<seq<byte>>, jumps: nat)
    requires p < |packet| && 1 <= packet[p] <= 63 && p + 1 + packet[p] <= |packet|
    ensures Derives(packet, p, [packet[p + 1..p + 1 + packet[p]]] + labels, jumps) <==> Derives(packet, p + 1 + packet[p], labels, jumps)
    ensures !Derives(packet, p, [], jumps)
  {
    assert ([packet[p + 1..p + 1 + packet[p]]] + labels)[1..] == labels;
  }

  /** A zero ends the name. */
  lemma ZeroOnWire(packet: seq<byte>, p: nat, labels: seq<seq<byte>>, jumps: nat)
    requires p < |packet| && packet[p] == 0
    ensures Derives(packet, p, labels, jumps) <==> labels == [] && jumps == 0
  {
  }

  /** Two bytes that begin with two set bits are a pointer: the name goes on at the other 14 bits, high byte first. */
  lemma PointerOnWire(packet: seq<byte>, p: nat, to: nat, labels: seq<seq<byte>>, jumps: nat)
    requires p + 1 < |packet| && to < 16384 && packet[p] == 192 + to / 256 && packet[p + 1] == to % 256
    ensures Derives(packet, p, labels, jumps) <==> jumps > 0 && Derives(packet, to, labels, jumps - 1)
  {
    var high: int := packet[p];
    assert high % 64 == to / 256;
  }

  /** Between labels stands a dot, and only there. */
  lemma DotsBetween(a: seq<byte>, labels: seq<seq<byte>>)
    requires labels != []
    ensures Joined([a]) == a && Joined([a] + labels) == a + [46] + Joined(labels)
  {
    assert ([a] + labels)[1..] == labels;
  }

  /** A name that reads along 1 to `most` pointers begins at q. */
  ghost predicate Leads(packet: seq<byte>, q: nat, most: nat) {
    q < |packet| && exists l, k: nat :: Derives(packet, q, l, k) && 0 < k <= most
  }

  /** The pointers on the way, counted: none is followed twice. */
  lemma {:induction false} PointersOnTheWay(packet: seq<byte>, p: nat, labels: seq<seq<byte>>, jumps: nat) returns (at: set<nat>)
    requires Derives(packet, p, labels, jumps)
    ensures |at| == jumps
    ensures forall q :: q in at ==> Leads(packet, q, jumps)
    decreases jumps, |labels|
  {
    if packet[p] == 0 {
      at := {};
    } else if packet[p] > MAX_LABEL {
      at := PointersOnTheWay(packet, Target(packet, p), labels, jumps - 1);
      if p in at {
        var l, k: nat :| Derives(packet, p, l, k) && 0 < k <= jumps - 1;
        OneReading(packet, p, labels, jumps, l, k);
      }
      forall q | q in at + {p}
        ensures Leads(packet, q, jumps)
      {
        if q in at {
          assert Leads(packet, q, jumps - 1);
        } else {
          assert Derives(packet, q, labels, jumps);
        }
      }
      at := at + {p};
    } else {
      at := PointersOnTheWay(packet, p + 1 + packet[p], labels[1..], jumps);
    }
  }

  lemma {:induction false} SetBelow(s: set<nat>, n: nat)
    requires forall q :: q in s ==> q < n
    ensures |s| <= n
  {
    if n > 0 {
      SetBelow(s - {n - 1}, n - 1);
    } else {
      assert s == {};
    }
  }

  /** So the limit on pointers, one for each byte of the packet, rejects only names that run in a circle. */
  lemma JumpLimit(packet: seq<byte>, p: nat, labels: seq<seq<byte>>, jumps: nat)
    requires Derives(packet, p, labels, jumps)
    ensures jumps <= |packet|
  {
    var at := PointersOnTheWay(packet, p, labels, jumps);
    SetBelow(at, |packet|);
  }

  /** There is a reading of the name at p, and a buffer of outLen bytes leaves room for it. */
  ghost predicate Readable(packet: seq<byte>, p: nat, outLen: nat) {
    exists labels, jumps: nat :: Derives(packet, p, labels, jumps) && |Joined(labels)| < outLen
  }

  /** No reading at all. */
  ghost predicate Unreadable(packet: seq<byte>, p: nat) {
    forall labels, jumps: nat :: !Derives(packet, p, labels, jumps)
  }

  /** The position at which a name goes on after its first label or pointer. */
  function Onward(packet: seq<byte>, p: nat): nat
    requires p < |packet| && packet[p] > MAX_LABEL ==> p + 1 < |packet|
  {
    if p >= |packet| then p
    else if packet[p] > MAX_LABEL then Target(packet, p)
    else p + 1 + packet[p]
  }

  lemma ReadsFromBefore(packet: seq<byte>, p: nat, labels: seq<seq<byte>>, jumps: nat)
    requires p < |packet| && packet[p] != 0
    requires if packet[p] > MAX_LABEL then p + 1 < |packet| else p + 1 + packet[p] <= |packet|
    requires Derives(packet, Onward(packet, p), labels, jumps)
    ensures !Unreadable(packet, p)
  {
    if packet[p] > MAX_LABEL {
      assert Derives(packet, p, labels, jumps + 1);
    } else {
      var all := [packet[p + 1..p + 1 + packet[p]]] + labels;
      assert all[1..] == labels;
      assert Derives(packet, p, all, jumps);
    }
  }

  lemma StaysUnreadable(packet: seq<byte>, p: nat)
    requires p < |packet| && packet[p] != 0 && Unreadable(packet, p)
    requires if packet[p] > MAX_LABEL then p + 1 < |packet| else p + 1 + packet[p] <= |packet|
    ensures Unreadable(packet, Onward(packet, p))
  {
    forall labels, jumps: nat
      ensures !Derives(packet, Onward(packet, p), labels, jumps)
    {
      if Derives(packet, Onward(packet, p), labels, jumps) {
        ReadsFromBefore(packet, p, labels, jumps);
      }
    }
  }

  /**
   * How far name_parse has got: it stands at position j, n labels have been written and k pointers
   * followed. Either `labels` is the reading, along `jumps` pointers, and the rest of it is ahead;
   * or there is no reading.
   */
  ghost predicate Underway(packet: seq<byte>, j: nat, has: bool, labels: seq<seq<byte>>, jumps: nat, n: nat, k: nat) {
    if has then n <= |labels| && k <= jumps && Derives(packet, j, labels[n..], jumps - k) else Unreadable(packet, j)
  }

  lemma UnderwayOn(packet: seq<byte>, j: nat, has: bool, labels: seq<seq<byte>>, jumps: nat, n: nat, k: nat)
    requires Underway(packet, j, has, labels, jumps, n, k) && j < |packet| && packet[j] != 0
    ensures has ==> if packet[j] > MAX_LABEL then j + 1 < |packet| && k < jumps
                    else j + 1 + packet[j] <= |packet| && n < |labels| && labels[n] == packet[j + 1..j + 1 + packet[j]]
    ensures packet[j] > MAX_LABEL && j + 1 < |packet| ==> Underway(packet, Onward(packet, j), has, labels, jumps, n, k + 1)
    ensures packet[j] <= MAX_LABEL && j + 1 + packet[j] <= |packet| ==> Underway(packet, Onward(packet, j), has, labels, jumps, n + 1, k)
  {
    if has {
      if packet[j] <= MAX_LABEL {
        assert labels[n..][1..] == labels[n + 1..];
      }
    } else if if packet[j] > MAX_LABEL then j + 1 < |packet| else j + 1 + packet[j] <= |packet| {
      StaysUnreadable(packet, j);
    }
  }

  /** Some label more, with a dot before it unless it is the first. The copy may run past the packet, not past the output. */
  method PutLabel(packet: seq<byte>, j: nat, n: nat, nameOut: array<byte>, cp: nat) returns (ok: bool, cp': nat)
    requires 0 < n && cp <= nameOut.Length
    modifies nameOut
    ensures ok <==> (if cp == 0 then n else cp + 1 + n) < nameOut.Length
    ensures ok ==> cp' == (if cp == 0 then n else cp + 1 + n)
    ensures ok && j + n <= |packet| ==>
      nameOut[..cp'] == (if cp == 0 then [] else old(nameOut[..cp]) + [DOT]) + packet[j..j + n]
  {
    cp' := cp;
    if cp != 0 {
      if cp + 1 >= nameOut.Length {
        return false, cp;
      }
      nameOut[cp] := DOT;
      cp' := cp + 1;
    }
    if cp' + n >= nameOut.Length {
      return false, cp;
    }
    forall i | 0 <= i < n {
      nameOut[cp' + i] := if j + i < |packet| then packet[j + i] else 0;
    }
    ok, cp' := true, cp' + n;
  }

  /** Whether the reading fits depends on its length only. */
  lemma TooLong(packet: seq<byte>, idx: nat, outLen: nat, has: bool, labels: seq<seq<byte>>, jumps: nat)
    requires if has then Derives(packet, idx, labels, jumps) else Unreadable(packet, idx)
    ensures Readable(packet, idx, outLen) <==> has && |Joined(labels)| < outLen
    ensures has ==> jumps <= |packet|
  {
    if has {
      JumpLimit(packet, idx, labels, jumps);
    }
    forall l, k: nat | Derives(packet, idx, l, k) && has
      ensures l == labels && k == jumps
    {
      OneReading(packet, idx, labels, jumps, l, k);
    }
  }

  /** What has been written once there is one label more. */
  lemma WrittenSoFar(labels: seq<seq<byte>>, n: nat)
    requires n < |labels|
    ensures Joined(labels[..n + 1]) == (if n == 0 then [] else Joined(labels[..n]) + [DOT]) + labels[n]
    ensures |Joined(labels[..n + 1])| <= |Joined(labels)|
  {
    assert labels[..n + 1] == labels[..n] + [labels[n]];
    if n > 0 {
      JoinedSnoc(labels[..n], labels[n]);
    }
    JoinedPrefix(labels, n + 1);
  }

  /** What starts at a position: the end of the name, a pointer, a label of n bytes, or nothing that could be read. */
  datatype Head = Bad | End | Jump(to: nat) | Word(n: nat)

  function HeadAt(packet: seq<byte>, p: nat): Head {
    if p >= |packet| then Bad
    else if packet[p] == 0 then End
    else if packet[p] <= MAX_LABEL then Word(packet[p])
    else if p + 1 < |packet| && Target(packet, p) < |packet| then Jump(Target(packet, p))
    else Bad
  }

  /** The head of the loop of name_parse. */
  method ReadHead(packet: seq<byte>, j: nat) returns (head: Head)
    ensures head == HeadAt(packet, j)
  {
    if j >= |packet| {
      return Bad;
    }
    var labelLen := packet[j];
    if labelLen == 0 {
      return End;
    }
    if labelLen > MAX_LABEL {
      if j + 1 >= |packet| {
        return Bad;
      }
      var high: int := labelLen;
      var to := high % 64 * 256 + packet[j + 1];
      return if to >= |packet| then Bad else Jump(to);
    }
    return Word(labelLen);
  }

  lemma LeadsSomewhere(packet: seq<byte>, p: nat, labels: seq<seq<byte>>, jumps: nat)
    requires Derives(packet, p, labels, jumps)
    ensures !HeadAt(packet, p).Bad?
  {
    if packet[p] > MAX_LABEL {
      assert Derives(packet, Target(packet, p), labels, jumps - 1);
    }
  }

  lemma BadRound(packet: seq<byte>, j: nat, has: bool, labels: seq<seq<byte>>, jumps: nat, n: nat, k: nat)
    requires Underway(packet, j, has, labels, jumps, n, k) && HeadAt(packet, j).Bad?
    ensures !has
  {
    if has {
      LeadsSomewhere(packet, j, labels[n..], jumps - k);
    }
  }

  lemma EndRound(packet: seq<byte>, j: nat, has: bool, labels: seq<seq<byte>>, jumps: nat, n: nat, k: nat)
    requires Underway(packet, j, has, labels, jumps, n, k) && HeadAt(packet, j).End?
    ensures has && n == |labels| && labels[..n] == labels && k == jumps && EndOf(packet, j) == j + 1
  {
    assert Derives(packet, j, [], 0);
  }

  lemma JumpRound(packet: seq<byte>, j: nat, has: bool, labels: seq<seq<byte>>, jumps: nat, n: nat, k: nat, to: nat)
    requires Underway(packet, j, has, labels, jumps, n, k) && HeadAt(packet, j) == Jump(to)
    ensures Underway(packet, to, has, labels, jumps, n, k + 1) && EndOf(packet, j) == j + 2 && (has ==> k < jumps)
  {
    UnderwayOn(packet, j, has, labels, jumps, n, k);
  }

  /** The first cp bytes of the output are the first n labels. */
  ghost predicate PutSoFar(nameOut: array<byte>, cp: nat, labels: seq<seq<byte>>, n: nat)
    reads nameOut
  {
    cp <= nameOut.Length && n <= |labels| && nameOut[..cp] == Joined(labels[..n]) && (cp == 0 <==> n == 0)
  }

  /** A round of name_parse that finds a label. */
  method WordRound(packet: seq<byte>, j: nat, w: nat, nameOut: array<byte>, cp: nat,
                   ghost has: bool, ghost labels: seq<seq<byte>>, ghost jumps: nat, ghost n: nat, ghost k: nat)
    returns (put: bool, j': nat, cp': nat)
    requires Underway(packet, j, has, labels, jumps, n, k) && HeadAt(packet, j) == Word(w)
    requires cp <= nameOut.Length && (has ==> PutSoFar(nameOut, cp, labels, n))
    modifies nameOut
    ensures put ==> j < j' <= |packet| && Underway(packet, j', has, labels, jumps, n + 1, k)
    ensures put ==> EndOf(packet, j') == EndOf(packet, j)
    ensures put ==> cp' <= nameOut.Length && (has ==> PutSoFar(nameOut, cp', labels, n + 1))
    ensures !put && has ==> |Joined(labels)| >= nameOut.Length
  {
    UnderwayOn(packet, j, has, labels, jumps, n, k);
    if has {
      WrittenSoFar(labels, n);
    }
    put, cp' := PutLabel(packet, j + 1, w, nameOut, cp);
    j' := j + 1 + w;
    // A label that is cut off has been copied by now; the next round would find out.
    put := put && j' <= |packet|;
  }

  /**
   * name_parse. It ends on every packet, also on one whose pointers run in a circle; and it
   * succeeds exactly on the names that have a reading that fits.
   */
  method NameParse(packet: seq<byte>, idx: nat, nameOut: array<byte>) returns (ok: bool, idx': nat, ghost labels: seq<seq<byte>>)
    modifies nameOut
    ensures ok <==> Readable(packet, idx, nameOut.Length)
    ensures ok ==> idx' == EndOf(packet, idx)
    ensures ok ==> exists jumps: nat :: Derives(packet, idx, labels, jumps)
    ensures ok ==> |Joined(labels)| < nameOut.Length && nameOut[..|Joined(labels)|] == Joined(labels) && nameOut[|Joined(labels)|] == 0
  {
    var nameEnd: int, j: nat, ptrCount: nat, cp: nat := -1, idx, 0, 0;
    ghost var has := !Unreadable(packet, idx);
    ghost var jumps: nat, n: nat := 0, 0;
    labels, idx', ok := [], idx, false;
    if has {
      labels, jumps :| Derives(packet, idx, labels, jumps);
      assert labels[0..] == labels;
    }
    TooLong(packet, idx, nameOut.Length, has, labels, jumps);
    var head := ReadHead(packet, j);
    while !head.End?
      invariant ptrCount <= |packet| && cp <= nameOut.Length && head == HeadAt(packet, j)
      invariant Underway(packet, j, has, labels, jumps, n, ptrCount)
      invariant has ==> PutSoFar(nameOut, cp, labels, n)
      invariant if nameEnd < 0 then EndOf(packet, j) == EndOf(packet, idx) else nameEnd == EndOf(packet, idx)
      decreases |packet| - ptrCount, |packet| - j
    {
      if head.Bad? {
        BadRound(packet, j, has, labels, jumps, n, ptrCount);
        return;
      } else if head.Jump? {
        JumpRound(packet, j, has, labels, jumps, n, ptrCount, head.to);
        if nameEnd < 0 {
          nameEnd := j + 2;
        }
        j, ptrCount := head.to, ptrCount + 1;
        if ptrCount > |packet| {
          return;
        }
      } else {
        var put;
        put, j, cp := WordRound(packet, j, head.n, nameOut, cp, has, labels, jumps, n, ptrCount);
        if !put {
          return;
        }
        n := n + 1;
      }
      head := ReadHead(packet, j);
    }
    EndRound(packet, j, has, labels, jumps, n, ptrCount);
    if cp >= nameOut.Length {
      return;
    }
    nameOut[cp] := 0;
    ok := true;
    idx' := if nameEnd < 0 then j + 1 else nameEnd;
  }
}
