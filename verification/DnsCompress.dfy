/** Writing names into a DNS message, with the table of suffixes that later names can point to. */
module DnsCompress {
  import opened Bytes
  import opened DnsNames

  /** strchr for a dot: where it is, or the length of the name. */
  function FirstDot(name: seq<byte>): (d: nat)
    ensures d <= |name|
  {
    if name == [] || name[0] == DOT then 0 else 1 + FirstDot(name[1..])
  }

  lemma {:induction false} FirstDotIsFirst(name: seq<byte>)
    ensures DOT !in name[..FirstDot(name)]
    ensures FirstDot(name) < |name| ==> name[FirstDot(name)] == DOT
  {
    if name != [] && name[0] != DOT {
      FirstDotIsFirst(name[1..]);
      assert name[..FirstDot(name)] == [name[0]] + name[1..][..FirstDot(name) - 1];
    }
  }

  /** The labels that a name says: those before its first empty one, which the length byte 0 would end. */
  function Meaning(name: seq<byte>): seq<seq<byte>>
    decreases |name|
  {
    var d := FirstDot(name);
    if d == 0 then []
    else if d == |name| then [name]
    else [name[..d]] + Meaning(name[d + 1..])
  }

  /** No label of the name is empty, but the name may be, or may end in a dot. */
  predicate Clean(name: seq<byte>)
    decreases |name|
  {
    var d := FirstDot(name);
    d == |name| || (d > 0 && Clean(name[d + 1..]))
  }

  /** No label is empty, and no dot ends the name. */
  predicate Plain(name: seq<byte>)
    decreases |name|
  {
    var d := FirstDot(name);
    d == |name| || (0 < d < |name| - 1 && Plain(name[d + 1..]))
  }

  /** A name means itself exactly if it has no empty label. */
  lemma {:induction false} MeaningIsName(name: seq<byte>)
    ensures |Joined(Meaning(name))| <= |name|
    ensures Joined(Meaning(name)) == name <==> Plain(name)
    decreases |name|
  {
    var d := FirstDot(name);
    FirstDotIsFirst(name);
    if 0 < d < |name| {
      var rest := name[d + 1..];
      MeaningIsName(rest);
      assert name == name[..d] + [DOT] + rest;
      if Meaning(rest) == [] {
        assert Meaning(name) == [name[..d]];
        assert Plain(rest) <==> rest == [];
      } else {
        assert Meaning(name)[1..] == Meaning(rest);
        assert Joined(Meaning(name)) == name[..d] + [DOT] + Joined(Meaning(rest));
        assert Joined(Meaning(name))[d + 1..] == Joined(Meaning(rest)) && name[d + 1..] == rest;
        assert rest != [];
      }
    }
  }

  /** "a..b" is written without complaint, and reads back as "a". */
  lemma EmptyLabelEndsName()
    ensures Meaning([97, DOT, DOT, 98]) == [[97]] && !Plain([97, DOT, DOT, 98]) && Plain([97, DOT, 98])
  {
    var name: seq<byte>, rest: seq<byte>, plain: seq<byte> := [97, DOT, DOT, 98], [DOT, 98], [97, DOT, 98];
    assert name[1..] == [DOT, DOT, 98] && plain[1..] == [DOT, 98];
    assert FirstDot(name) == 1 && FirstDot(plain) == 1 && FirstDot(rest) == 0;
    assert name[2..] == rest && name[..1] == [97] && plain[2..] == [98];
    assert [98][1..] == [] && FirstDot([98]) == 1;
  }

  /** A name decodes to what it says at position p, along pointers that each lead further back. */
  ghost predicate Decodes(packet: seq<byte>, p: nat, name: seq<byte>) {
    exists jumps: nat :: jumps <= p && Derives(packet, p, Meaning(name), jumps)
  }

  lemma {:induction false} Extends(packet: seq<byte>, longer: seq<byte>, p: nat, labels: seq<seq<byte>>, jumps: nat)
    requires Derives(packet, p, labels, jumps) && packet <= longer
    ensures Derives(longer, p, labels, jumps)
    decreases jumps, |labels|
  {
    assert longer[p] == packet[p];
    if packet[p] > MAX_LABEL {
      Extends(packet, longer, Target(packet, p), labels, jumps - 1);
    } else if packet[p] > 0 {
      assert longer[p + 1..p + 1 + packet[p]] == packet[p + 1..p + 1 + packet[p]];
      Extends(packet, longer, p + 1 + packet[p], labels[1..], jumps);
    }
  }

  lemma DecodesExtends(packet: seq<byte>, longer: seq<byte>, p: nat, name: seq<byte>)
    requires Decodes(packet, p, name) && packet <= longer
    ensures Decodes(longer, p, name)
  {
    var jumps: nat :| jumps <= p && Derives(packet, p, Meaning(name), jumps);
    Extends(packet, longer, p, Meaning(name), jumps);
  }

  /** The first label of `name` stands at position p. */
  ghost predicate LabelAt(packet: seq<byte>, p: nat, name: seq<byte>) {
    var d := FirstDot(name);
    d <= MAX_LABEL && p + 1 + d <= |packet| && packet[p] == d && packet[p + 1..p + 1 + d] == name[..d]
  }

  lemma LabelStays(packet: seq<byte>, longer: seq<byte>, p: nat, name: seq<byte>)
    requires LabelAt(packet, p, name) && packet <= longer
    ensures LabelAt(longer, p, name)
  {
    var d := FirstDot(name);
    assert longer[p + 1..p + 1 + d] == packet[p + 1..p + 1 + d];
  }

  /** From position p to position q stand the labels of `name` up to where `rest` begins, dots being left out. */
  ghost predicate Written(packet: seq<byte>, name: seq<byte>, p: nat, rest: seq<byte>, q: nat)
    decreases |name|
  {
    if |name| <= |rest| then name == rest && p == q
    else
      var d := FirstDot(name);
      d < |name| && LabelAt(packet, p, name) && Written(packet, name[d + 1..], p + 1 + d, rest, q)
  }

  lemma {:induction false} WrittenOn(packet: seq<byte>, longer: seq<byte>, name: seq<byte>, p: nat, rest: seq<byte>, q: nat, d: nat)
    requires Written(packet, name, p, rest, q) && packet <= longer
    requires LabelAt(longer, q, rest) && d == FirstDot(rest) < |rest|
    ensures Written(longer, name, p, rest[d + 1..], q + 1 + d)
    decreases |name|
  {
    if |name| > |rest| {
      LabelStays(packet, longer, p, name);
      WrittenOn(packet, longer, name[FirstDot(name) + 1..], p + 1 + FirstDot(name), rest, q, d);
    }
  }

  /** With its first label in place, a name reads as its rest does. */
  lemma LabelReads(packet: seq<byte>, p: nat, name: seq<byte>, d: nat, rest: seq<byte>, jumps: nat) returns (k: nat)
    requires d == FirstDot(name) && d < |name| && LabelAt(packet, p, name) && rest == name[d + 1..]
    requires Derives(packet, p + 1 + d, Meaning(rest), jumps)
    ensures k <= jumps && Derives(packet, p, Meaning(name), k)
    ensures Clean(name) ==> Clean(rest) && EndOf(packet, p) == EndOf(packet, p + 1 + d)
  {
    if d == 0 {
      k := 0;
    } else {
      k := jumps;
      assert Meaning(name)[1..] == Meaning(rest);
    }
  }

  /** Once the rest of the name can be read where its labels end, all of it can. */
  lemma {:induction false} WrittenReads(packet: seq<byte>, name: seq<byte>, p: nat, rest: seq<byte>, q: nat, jumps: nat) returns (k: nat)
    requires Written(packet, name, p, rest, q) && Derives(packet, q, Meaning(rest), jumps)
    ensures k <= jumps && Derives(packet, p, Meaning(name), k)
    ensures Clean(name) ==> Clean(rest) && EndOf(packet, p) == EndOf(packet, q)
    decreases |name|
  {
    k := jumps;
    if |name| > |rest| {
      var d := FirstDot(name);
      k := WrittenReads(packet, name[d + 1..], p + 1 + d, rest, q, jumps);
      k := LabelReads(packet, p, name, d, name[d + 1..], k);
    }
  }

  /** dnslabel_table_entry. */
  datatype Entry = Entry(v: seq<byte>, pos: nat)

  /** struct dnslabel_table. */
  class LabelTable {
    var labels: seq<Entry>

    constructor ()
      ensures labels == []
    {
      labels := [];
    }

    /** dnslabel_table_get_pos. */
    method GetPos(name: seq<byte>) returns (ref: int)
      ensures ref == -1 || exists i :: 0 <= i < |labels| && labels[i].v == name && labels[i].pos == ref
      ensures ref == -1 <==> forall i :: 0 <= i < |labels| ==> labels[i].v != name
    {
      for i := 0 to |labels|
        invariant forall j :: 0 <= j < i ==> labels[j].v != name
      {
        if labels[i].v == name {
          return labels[i].pos;
        }
      }
      return -1;
    }

    /** dnslabel_table_add; a full table stays as it is. */
    method Add(name: seq<byte>, pos: nat) returns (ok: bool)
      modifies this
      ensures ok <==> |old(labels)| != 128
      ensures labels == if ok then old(labels) + [Entry(name, pos)] else old(labels)
    {
      if |labels| == MAX_LABELS {
        return false;
      }
      labels := labels + [Entry(name, pos)];
      ok := true;
    }
  }

  /** An entry can be pointed to, and what stands there is what it says. */
  ghost predicate EntryOk(packet: seq<byte>, e: Entry) {
    e.pos < MAX_POINTER && Decodes(packet, e.pos, e.v)
  }

  ghost predicate TableOk(packet: seq<byte>, labels: seq<Entry>) {
    forall i :: 0 <= i < |labels| ==> EntryOk(packet, labels[i])
  }

  /** An entry of the name that is being written: it says something that stands at its position, up to where `rest` is to follow. */
  ghost predicate EntryBegun(packet: seq<byte>, e: Entry, j0: nat, rest: seq<byte>, q: nat) {
    j0 <= e.pos < MAX_POINTER && |e.v| > |rest| && Written(packet, e.v, e.pos, rest, q)
  }

  lemma {:induction false} WrittenStays(packet: seq<byte>, longer: seq<byte>, name: seq<byte>, p: nat, rest: seq<byte>, q: nat)
    requires Written(packet, name, p, rest, q) && packet <= longer
    ensures Written(longer, name, p, rest, q)
    decreases |name|
  {
    if |name| > |rest| {
      LabelStays(packet, longer, p, name);
      WrittenStays(packet, longer, name[FirstDot(name) + 1..], p + 1 + FirstDot(name), rest, q);
    }
  }

  /** The table while a name is being written from position j0 on: what it held before, and suffixes of the name. */
  ghost predicate TableBegun(packet: seq<byte>, was: seq<Entry>, labels: seq<Entry>, j0: nat, rest: seq<byte>, q: nat) {
    && |was| <= |labels| && labels[..|was|] == was
    && forall i {:trigger labels[i]} :: |was| <= i < |labels| ==> EntryBegun(packet, labels[i], j0, rest, q)
  }

  lemma OneLabelWritten(packet: seq<byte>, rest: seq<byte>, q: nat, d: nat)
    requires LabelAt(packet, q, rest) && d == FirstDot(rest) < |rest|
    ensures Written(packet, rest, q, rest[d + 1..], q + 1 + d)
  {
    assert Written(packet, rest[d + 1..], q + 1 + d, rest[d + 1..], q + 1 + d);
  }

  lemma NewEntry(packet: seq<byte>, j0: nat, rest: seq<byte>, q: nat, d: nat, rest': seq<byte>)
    requires LabelAt(packet, q, rest) && d == FirstDot(rest) < |rest| && j0 <= q < MAX_POINTER && rest' == rest[d + 1..]
    ensures EntryBegun(packet, Entry(rest, q), j0, rest', q + 1 + d)
  {
    OneLabelWritten(packet, rest, q, d);
  }

  lemma EntryGoesOn(packet: seq<byte>, longer: seq<byte>, e: Entry, j0: nat, rest: seq<byte>, q: nat, d: nat, rest': seq<byte>)
    requires EntryBegun(packet, e, j0, rest, q) && packet <= longer
    requires LabelAt(longer, q, rest) && d == FirstDot(rest) < |rest| && rest' == rest[d + 1..]
    ensures EntryBegun(longer, e, j0, rest', q + 1 + d)
  {
    WrittenOn(packet, longer, e.v, e.pos, rest, q, d);
  }

  /** Another label has been written, and the suffix that begins with it may have been entered. */
  lemma TableGoesOn(packet: seq<byte>, longer: seq<byte>, was: seq<Entry>, labels: seq<Entry>, labels': seq<Entry>,
                    j0: nat, rest: seq<byte>, q: nat, d: nat, rest': seq<byte>)
    requires TableBegun(packet, was, labels, j0, rest, q) && packet <= longer && j0 <= q < MAX_POINTER
    requires LabelAt(longer, q, rest) && d == FirstDot(rest) < |rest| && rest' == rest[d + 1..]
    requires labels' == labels || labels' == labels + [Entry(rest, q)]
    ensures TableBegun(longer, was, labels', j0, rest', q + 1 + d)
  {
    forall i | |was| <= i < |labels'|
      ensures EntryBegun(longer, labels'[i], j0, rest', q + 1 + d)
    {
      if i < |labels| {
        EntryGoesOn(packet, longer, labels[i], j0, rest, q, d, rest');
      } else {
        NewEntry(longer, j0, rest, q, d, rest');
      }
    }
  }

  /** A name is complete once what is left of it can be read where its labels end. */
  lemma NameDone(packet: seq<byte>, longer: seq<byte>, name: seq<byte>, p: nat, rest: seq<byte>, q: nat, jumps: nat)
    requires Written(packet, name, p, rest, q) && packet <= longer
    requires Derives(longer, q, Meaning(rest), jumps) && jumps <= p
    ensures Decodes(longer, p, name)
    ensures Clean(name) ==> Clean(rest) && EndOf(longer, p) == EndOf(longer, q)
  {
    WrittenStays(packet, longer, name, p, rest, q);
    var k := WrittenReads(longer, name, p, rest, q, jumps);
  }

  /** And so are its entries. */
  lemma TableDone(packet: seq<byte>, longer: seq<byte>, was: seq<Entry>, labels: seq<Entry>, labels': seq<Entry>,
                  j0: nat, rest: seq<byte>, q: nat, jumps: nat)
    requires j0 <= |packet| && TableOk(packet[..j0], was) && TableBegun(packet, was, labels, j0, rest, q) && packet <= longer
    requires Derives(longer, q, Meaning(rest), jumps) && jumps <= j0 <= q < MAX_POINTER
    requires labels' == labels || labels' == labels + [Entry(rest, q)]
    ensures TableOk(longer, labels')
  {
    forall i | 0 <= i < |labels'|
      ensures EntryOk(longer, labels'[i])
    {
      if i < |was| {
        assert labels'[i] == labels[..|was|][i] == was[i];
        assert EntryOk(packet[..j0], was[i]);
        DecodesExtends(packet[..j0], longer, was[i].pos, was[i].v);
      } else if i < |labels| {
        assert labels'[i] == labels[i];
        NameDone(packet, longer, labels[i].v, labels[i].pos, rest, q, jumps);
      }
    }
  }

  /** The length byte and the bytes of a label. */
  method PutWord(buf: array<byte>, j: nat, rest: seq<byte>, d: nat)
    requires d == FirstDot(rest) <= MAX_LABEL && j + 1 + d <= buf.Length
    modifies buf
    ensures buf[..j] == old(buf[..j]) && LabelAt(buf[..j + 1 + d], j, rest)
    ensures d > 0 ==> buf[j + d] == rest[d - 1]
  {
    buf[j] := d;
    forall i | 0 <= i < d {
      buf[j + 1 + i] := rest[i];
    }
    ghost var word := buf[j + 1..j + 1 + d];
    assert forall i :: 0 <= i < d ==> word[i] == rest[i];
    assert word == rest[..d];
    assert buf[..j + 1 + d][j + 1..j + 1 + d] == word;
  }

  /** APPEND16 of a pointer. */
  method PutPointer(buf: array<byte>, j: nat, ref: nat)
    requires j + 2 <= buf.Length && ref < MAX_POINTER
    modifies buf
    ensures buf[..j] == old(buf[..j])
    ensures buf[j] > MAX_LABEL && Target(buf[..j + 2], j) == ref
  {
    buf[j] := 192 + ref / 256;
    buf[j + 1] := ref % 256;
    var high: int := buf[j];
    assert high % 64 == ref / 256;
  }

  /** No label is longer than 63 bytes. */
  predicate ShortLabels(name: seq<byte>)
    decreases |name|
  {
    var d := FirstDot(name);
    d <= MAX_LABEL && (d < |name| ==> ShortLabels(name[d + 1..]))
  }

  /** A name without dots is short enough up to 63 bytes. */
  lemma LongestLabel(name: seq<byte>)
    requires 46 !in name
    ensures ShortLabels(name) <==> |name| <= 63
  {
    FirstDotIsFirst(name);
    assert FirstDot(name) == |name|;
  }

  /** The last label and the zero behind it read as the label; an empty last label is the zero itself. */
  lemma LastLabelReads(packet: seq<byte>, q: nat, rest: seq<byte>)
    requires LabelAt(packet, q, rest) && FirstDot(rest) == |rest|
    requires rest != [] ==> q + 1 + |rest| < |packet| && packet[q + 1 + |rest|] == 0
    ensures Derives(packet, q, Meaning(rest), 0)
    ensures EndOf(packet, q) == if rest == [] then q + 1 else q + 2 + |rest|
  {
    if rest != [] {
      assert Derives(packet, q + 1 + |rest|, [], 0);
      assert rest[..|rest|] == rest;
    }
  }

  lemma PointerReads(was: seq<byte>, packet: seq<byte>, q: nat, rest: seq<byte>, ref: nat) returns (jumps: nat)
    requires Decodes(was, ref, rest) && was <= packet && |was| <= q
    requires q + 1 < |packet| && packet[q] > MAX_LABEL && Target(packet, q) == ref
    ensures Derives(packet, q, Meaning(rest), jumps) && jumps <= |was| && EndOf(packet, q) == q + 2
  {
    var k: nat :| k <= ref && Derives(was, ref, Meaning(rest), k);
    Extends(was, packet, ref, Meaning(rest), k);
    jumps := k + 1;
  }

  /** What dnsname_to_labels promises of the bytes that it has written. */
  ghost predicate Encoded(packet: seq<byte>, j0: nat, name: seq<byte>, labels: seq<Entry>) {
    && Decodes(packet, j0, name) && TableOk(packet, labels)
    && (Clean(name) ==> EndOf(packet, j0) == |packet|)
  }

  function LabelsOf(table: LabelTable?): seq<Entry>
    reads table
  {
    if table == null then [] else table.labels
  }

  /**
   * dnsname_to_labels is under way: the message is written up to position j, with the labels of
   * the name up to where `rest` begins, and the table held `was` at the beginning.
   */
  ghost predicate Midway(packet: seq<byte>, j0: nat, name: seq<byte>, rest: seq<byte>, j: nat, was: seq<Entry>, labels: seq<Entry>) {
    && j0 <= j == |packet| < MAX_POINTER && TableOk(packet[..j0], was)
    && Written(packet, name, j0, rest, j) && TableBegun(packet, was, labels, j0, rest, j)
  }

  lemma MidwayFirst(packet: seq<byte>, name: seq<byte>, was: seq<Entry>)
    requires TableOk(packet, was) && |packet| < MAX_POINTER
    ensures Midway(packet, |packet|, name, name, |packet|, was, was)
  {
    assert packet[..|packet|] == packet && was[..|was|] == was;
  }

  lemma MidwayOn(packet: seq<byte>, longer: seq<byte>, j0: nat, name: seq<byte>, rest: seq<byte>, j: nat,
                 was: seq<Entry>, labels: seq<Entry>, labels': seq<Entry>, d: nat, rest': seq<byte>)
    requires Midway(packet, j0, name, rest, j, was, labels) && packet <= longer && |longer| == j + 1 + d < MAX_POINTER
    requires LabelAt(longer, j, rest) && d == FirstDot(rest) < |rest| && rest' == rest[d + 1..]
    requires labels' == labels || labels' == labels + [Entry(rest, j)]
    ensures Midway(longer, j0, name, rest', j + 1 + d, was, labels')
  {
    assert longer[..j0] == packet[..j0];
    WrittenOn(packet, longer, name, j0, rest, j, d);
    TableGoesOn(packet, longer, was, labels, labels', j0, rest, j, d, rest');
  }

  /** The rest of the name stands where it begins: the name is complete. */
  lemma MidwayDone(packet: seq<byte>, longer: seq<byte>, j0: nat, name: seq<byte>, rest: seq<byte>, j: nat,
                   was: seq<Entry>, labels: seq<Entry>, labels': seq<Entry>, jumps: nat)
    requires Midway(packet, j0, name, rest, j, was, labels) && packet <= longer
    requires Derives(longer, j, Meaning(rest), jumps) && jumps <= j0
    requires labels' == labels || labels' == labels + [Entry(rest, j)]
    requires Clean(rest) ==> EndOf(longer, j) == |longer|
    ensures Encoded(longer, j0, name, labels')
  {
    NameDone(packet, longer, name, j0, rest, j, jumps);
    TableDone(packet, longer, was, labels, labels', j0, rest, j, jumps);
  }

  /** The table has the name itself. */
  ghost predicate Knows(labels: seq<Entry>, name: seq<byte>) {
    exists i :: 0 <= i < |labels| && labels[i].v == name
  }

  /** The table has the name, unless it was full before. */
  ghost predicate Known(table: LabelTable?, was: seq<Entry>, labels: seq<Entry>, name: seq<byte>) {
    table != null && |was| != MAX_LABELS ==> Knows(labels, name)
  }

  lemma EnteredKnows(table: LabelTable?, was: seq<Entry>, labels: seq<Entry>, name: seq<byte>, rest: seq<byte>, j: nat)
    requires if rest == name then labels == was else Known(table, was, labels, name)
    ensures Known(table, was, Entered(table, labels, rest, j), name)
  {
    var labels' := Entered(table, labels, rest, j);
    if table != null && |was| != MAX_LABELS {
      if rest == name {
        assert labels'[|was|].v == name;
      } else {
        var i :| 0 <= i < |labels| && labels[i].v == name;
        assert labels'[i].v == name;
      }
    }
  }

  /** A position in the table is one before the name, where the suffix can be read. */
  method Lookup(table: LabelTable?, rest: seq<byte>, ghost packet: seq<byte>, ghost j0: nat, ghost name: seq<byte>,
                ghost j: nat, ghost was: seq<Entry>)
    returns (ref: int)
    requires Midway(packet, j0, name, rest, j, was, LabelsOf(table))
    ensures ref >= 0 ==> ref < MAX_POINTER && Decodes(packet[..j0], ref, rest)
    ensures (ref >= 0 <==> Knows(was, rest)) && (ref >= 0 ==> Knows(LabelsOf(table), rest))
  {
    ref := -1;
    if table != null {
      ref := table.GetPos(rest);
      if ref >= 0 {
        ghost var i :| 0 <= i < |table.labels| && table.labels[i].v == rest && table.labels[i].pos == ref;
        assert i >= |was| ==> EntryBegun(packet, table.labels[i], j0, rest, j);
        assert table.labels[..|was|][i] == was[i];
        assert EntryOk(packet[..j0], was[i]);
      }
      assert forall i :: 0 <= i < |was| ==> table.labels[i] == table.labels[..|was|][i] == was[i];
    }
  }

  /** `goto overflow`, or a pointer that ends the name. */
  method PointTo(buf: array<byte>, bufLen: nat, ghost j0: nat, ghost name: seq<byte>, ghost rest: seq<byte>, j: nat, ref: nat,
                 ghost was: seq<Entry>, ghost labels: seq<Entry>)
    returns (r: int)
    requires j <= bufLen < buf.Length && Midway(buf[..j], j0, name, rest, j, was, labels)
    requires ref < MAX_POINTER && Decodes(buf[..j0], ref, rest)
    modifies buf
    ensures buf[..j0] == old(buf[..j0])
    ensures r == if j + 2 > bufLen then -2 else j + 2
    ensures r >= 0 ==> Encoded(buf[..r], j0, name, labels)
  {
    if j + 2 > bufLen {
      return -2;
    }
    ghost var before := buf[..j];
    assert before[..j0] == buf[..j0];
    PutPointer(buf, j, ref);
    r := j + 2;
    assert before[..j0] == buf[..j0] && before <= buf[..r];
    ghost var jumps := PointerReads(before[..j0], buf[..r], j, rest, ref);
    MidwayDone(before, buf[..r], j0, name, rest, j, was, labels, labels, jumps);
  }

  /** The closing zero, which an empty last label has written already. It is written without a look at bufLen. */
  method Close(buf: array<byte>, ghost j0: nat, ghost name: seq<byte>, rest: seq<byte>, ghost q: nat, j: nat,
               ghost packet: seq<byte>, ghost was: seq<Entry>, ghost labels: seq<Entry>, ghost labels': seq<Entry>)
    returns (r: nat)
    requires 0 < j < buf.Length && packet <= buf[..j] && Midway(packet, j0, name, rest, q, was, labels)
    requires LabelAt(buf[..j], q, rest) && FirstDot(rest) == |rest| && j == q + 1 + |rest| && 0 !in rest
    requires labels' == labels || labels' == labels + [Entry(rest, q)]
    modifies buf
    ensures buf[..j0] == old(buf[..j0])
    ensures r == (if rest == [] then j else j + 1) <= buf.Length && Encoded(buf[..r], j0, name, labels')
  {
    r := j;
    ghost var before := buf[..j];
    assert buf[j - 1] == before[j - 1] == if rest == [] then before[q] else before[q + 1..q + 1 + |rest|][|rest| - 1];
    if buf[j - 1] != 0 {
      buf[j] := 0;
      r := j + 1;
    }
    assert before <= buf[..r];
    LabelStays(before, buf[..r], q, rest);
    LastLabelReads(buf[..r], q, rest);
    MidwayDone(packet, buf[..r], j0, name, rest, q, was, labels, labels', 0);
  }

  /** A table with a suffix more, if there is a table and room in it. */
  function Entered(table: LabelTable?, labels: seq<Entry>, rest: seq<byte>, j: nat): seq<Entry> {
    if table != null && |labels| != MAX_LABELS then labels + [Entry(rest, j)] else labels
  }

  method Enter(table: LabelTable?, rest: seq<byte>, j: nat)
    modifies if table == null then {} else {table}
    ensures LabelsOf(table) == Entered(table, old(LabelsOf(table)), rest, j)
  {
    if table != null {
      var added := table.Add(rest, j);
    }
  }

  /** A label, entered in the table and written. */
  method OneWord(buf: array<byte>, bufLen: nat, ghost j0: nat, ghost name: seq<byte>, rest: seq<byte>, j: nat, d: nat,
                 table: LabelTable?, ghost was: seq<Entry>)
    returns (r: int)
    requires j <= bufLen < MAX_POINTER && bufLen <= buf.Length && d == FirstDot(rest)
    requires Midway(buf[..j], j0, name, rest, j, was, LabelsOf(table))
    modifies buf, if table == null then {} else {table}
    ensures r == if d > MAX_LABEL then -1 else if j + d + 1 > bufLen then -2 else j + 1 + d
    ensures r >= 0 ==> buf[..j] == old(buf[..j]) && LabelAt(buf[..r], j, rest)
    ensures r >= 0 ==> LabelsOf(table) == Entered(table, old(LabelsOf(table)), rest, j)
    ensures r >= 0 && d < |rest| ==> Midway(buf[..r], j0, name, rest[d + 1..], r, was, LabelsOf(table))
    ensures buf[..j0] == old(buf[..j0])
  {
    ghost var packet, labels := buf[..j], LabelsOf(table);
    if d > MAX_LABEL {
      return -1;
    }
    if j + d + 1 > bufLen {
      return -2;
    }
    r := j + 1 + d;
    assert packet[..j0] == buf[..j0];
    Enter(table, rest, j);
    PutWord(buf, j, rest, d);
    assert packet <= buf[..r] && packet[..j0] == buf[..j0];
    if d < |rest| {
      MidwayOn(packet, buf[..r], j0, name, rest, j, was, labels, LabelsOf(table), d, rest[d + 1..]);
    }
  }

  /** How many bytes a name takes when no suffix of it is known: a zero ends it, unless an empty last label has. */
  function PlainLength(name: seq<byte>): nat {
    |name| + 1 + if name == [] || name[|name| - 1] == DOT then 0 else 1
  }

  /** The longest suffix of the name that the table has. */
  ghost function KnownRest(was: seq<Entry>, name: seq<byte>): Option<seq<byte>>
    decreases |name|
  {
    var d := FirstDot(name);
    if Knows(was, name) then Some(name) else if d == |name| then None else KnownRest(was, name[d + 1..])
  }

  /** No label before that suffix is longer than 63 bytes. */
  predicate ShortUpTo(name: seq<byte>, rest: seq<byte>)
    decreases |name|
  {
    var d := FirstDot(name);
    |name| <= |rest| || (d <= MAX_LABEL && d < |name| && ShortUpTo(name[d + 1..], rest))
  }

  /** What the loop of dnsname_to_labels returns, for a name of which `name` is still to be written at j. */
  ghost function Outcome(was: seq<Entry>, name: seq<byte>, j: nat, bufLen: nat): int
    decreases |name|
  {
    var d := FirstDot(name);
    if Knows(was, name) then (if j + 2 > bufLen then -2 else j + 2)
    else if d > MAX_LABEL then -1
    else if j + d + 1 > bufLen then -2
    else if d == |name| then j + d + 1 + (if d > 0 then 1 else 0)
    else Outcome(was, name[d + 1..], j + d + 1, bufLen)
  }

  /** Exactly which names can be written at j, and how far they reach. */
  ghost predicate Reaches(was: seq<Entry>, name: seq<byte>, j: nat, bufLen: nat, r: int) {
    match KnownRest(was, name)
    case None =>
      && (r >= 0 <==> ShortLabels(name) && j + |name| + 1 <= bufLen)
      && (r >= 0 ==> r == j + PlainLength(name))
    case Some(rest) =>
      && (r >= 0 <==> ShortUpTo(name, rest) && j + |name| - |rest| + 2 <= bufLen)
      && (r >= 0 ==> r == j + |name| - |rest| + 2)
  }

  lemma {:induction false} OutcomeReaches(was: seq<Entry>, name: seq<byte>, j: nat, bufLen: nat)
    ensures Reaches(was, name, j, bufLen, Outcome(was, name, j, bufLen))
    ensures KnownRest(was, name).Some? ==> |KnownRest(was, name).value| <= |name|
    decreases |name|
  {
    var d := FirstDot(name);
    if !Knows(was, name) {
      if d < |name| {
        OutcomeReaches(was, name[d + 1..], j + d + 1, bufLen);
      }
      LengthOn(name, d);
    }
  }

  lemma LengthOn(name: seq<byte>, d: nat)
    requires d == FirstDot(name)
    ensures PlainLength(name) == d + 1 + if d < |name| then PlainLength(name[d + 1..]) else if d > 0 then 1 else 0
  {
    FirstDotIsFirst(name);
    if d == |name| && name != [] {
      assert name[..d][d - 1] == name[|name| - 1];
    }
  }

  lemma {:induction false} OutcomeErrors(was: seq<Entry>, name: seq<byte>, j: nat, bufLen: nat)
    ensures Outcome(was, name, j, bufLen) >= -2
    ensures Outcome(was, name, j, bufLen) == -1 ==> !ShortLabels(name)
    ensures Outcome(was, name, j, bufLen) == -2 ==> j + |name| + 2 > bufLen
    ensures KnownRest(was, name).Some? && ShortLabels(name) ==> ShortUpTo(name, KnownRest(was, name).value)
    decreases |name|
  {
    var d := FirstDot(name);
    if !Knows(was, name) && d < |name| {
      OutcomeErrors(was, name[d + 1..], j + d + 1, bufLen);
    }
  }

  lemma {:induction false} NothingKnown(name: seq<byte>)
    ensures KnownRest([], name) == None
    decreases |name|
  {
    var d := FirstDot(name);
    if d < |name| {
      NothingKnown(name[d + 1..]);
    }
  }

  /** The closing zero is written just behind the bytes that dnsname_to_labels may use. */
  ghost predicate Overruns(was: seq<Entry>, name: seq<byte>, j: nat, bufLen: nat) {
    && |name| <= MAX_NAME && ShortLabels(name) && KnownRest(was, name) == None
    && j + |name| + 1 == bufLen && name != [] && name[|name| - 1] != DOT
  }

  /** What the result of dnsname_to_labels says about the bytes it may use. */
  lemma OutcomeMeans(was: seq<Entry>, name: seq<byte>, j: nat, bufLen: nat, r: int)
    requires r == if |name| > MAX_NAME then -2 else Outcome(was, name, j, bufLen)
    ensures |name| <= MAX_NAME ==> Reaches(was, name, j, bufLen, r)
    ensures r < 0 ==> r == -1 || r == -2
    ensures r == -1 ==> !ShortLabels(name)
    ensures r == bufLen + 1 <==> Overruns(was, name, j, bufLen)
    ensures r <= bufLen + 1 && r <= j + |name| + 2 && (r >= 0 ==> j < r)
    ensures Knows(was, name) && r >= 0 ==> r == j + 2
    ensures was == [] ==> (r >= 0 <==> |name| <= MAX_NAME && ShortLabels(name) && j + |name| + 1 <= bufLen)
    ensures was == [] && r >= 0 ==> r == j + PlainLength(name)
    ensures |name| > 255 ==> r == -2
    ensures r == -2 ==> |name| > 255 || j + |name| + 2 > bufLen
    ensures |name| <= MAX_NAME && ShortLabels(name) && j + |name| + 2 <= bufLen ==> r >= 0
  {
    OutcomeReaches(was, name, j, bufLen);
    OutcomeErrors(was, name, j, bufLen);
    NothingKnown(name);
  }

  /** The loop of dnsname_to_labels has come to position j, where `name` is still to be written. */
  ghost predicate Writing(packet: seq<byte>, bufLen: nat, j0: nat, name0: seq<byte>, name: seq<byte>, j: nat,
                          table: LabelTable?, was: seq<Entry>, labels: seq<Entry>) {
    && j <= bufLen && |name| <= |name0| && 0 !in name
    && Outcome(was, name, j, bufLen) == Outcome(was, name0, j0, bufLen)
    && (if |name| == |name0| then name == name0 && labels == was else Known(table, was, labels, name0))
    && Midway(packet, j0, name0, name, j, was, labels)
  }

  /** One label on, the loop still is where it should be. */
  lemma WritingOn(packet: seq<byte>, longer: seq<byte>, bufLen: nat, j0: nat, name0: seq<byte>, name: seq<byte>, j: nat, d: nat,
                  table: LabelTable?, was: seq<Entry>, labels: seq<Entry>)
    requires Writing(packet, bufLen, j0, name0, name, j, table, was, labels) && !Knows(was, name)
    requires d == FirstDot(name) < |name| && d <= MAX_LABEL && j + d + 1 <= bufLen
    requires Midway(longer, j0, name0, name[d + 1..], j + d + 1, was, Entered(table, labels, name, j))
    ensures Writing(longer, bufLen, j0, name0, name[d + 1..], j + d + 1, table, was, Entered(table, labels, name, j))
  {
    EnteredKnows(table, was, labels, name0, name, j);
    OutcomeStep(was, name, j, d, bufLen);
    var rest := name[d + 1..];
    assert forall i :: 0 <= i < |rest| ==> rest[i] == name[d + 1 + i];
    assert |rest| < |name0|;
  }

  lemma OutcomeStep(was: seq<Entry>, name: seq<byte>, j: nat, d: nat, bufLen: nat)
    requires !Knows(was, name) && d == FirstDot(name) < |name| && d <= MAX_LABEL && j + d + 1 <= bufLen
    ensures Outcome(was, name, j, bufLen) == Outcome(was, name[d + 1..], j + d + 1, bufLen)
  {
  }

  /** The rest of a round, when the table does not have `name`. */
  method WriteWord(buf: array<byte>, bufLen: nat, ghost j0: nat, ghost name0: seq<byte>, name: seq<byte>, j: nat,
                   table: LabelTable?, ghost was: seq<Entry>)
    returns (done: bool, r: int)
    requires j <= bufLen < buf.Length && bufLen < MAX_POINTER && !Knows(was, name)
    requires Writing(buf[..j], bufLen, j0, name0, name, j, table, was, LabelsOf(table))
    modifies buf, if table == null then {} else {table}
    ensures buf[..j0] == old(buf[..j0])
    ensures done ==> r == Outcome(was, name, j, bufLen)
    ensures done && r >= 0 ==> r <= buf.Length && Encoded(buf[..r], j0, name0, LabelsOf(table))
    ensures done && r >= 0 ==> Known(table, was, LabelsOf(table), name0)
    ensures !done ==> 0 <= r <= bufLen && FirstDot(name) < |name|
    ensures !done ==> Writing(buf[..r], bufLen, j0, name0, name[FirstDot(name) + 1..], r, table, was, LabelsOf(table))
  {
    ghost var packet, labels := buf[..j], LabelsOf(table);
    var d := FirstDot(name);
    done := true;
    r := OneWord(buf, bufLen, j0, name0, name, j, d, table, was);
    if r >= 0 {
      if d == |name| {
        EnteredKnows(table, was, labels, name0, name, j);
        assert Known(table, was, LabelsOf(table), name0);
        assert packet <= buf[..r];
        r := Close(buf, j0, name0, name, j, r, packet, was, labels, LabelsOf(table));
      } else {
        done := false;
        WritingOn(packet, buf[..r], bufLen, j0, name0, name, j, d, table, was, labels);
      }
    }
  }

  /** A round of that loop: the name is done with, or it goes on behind its first dot. */
  method WriteLabel(buf: array<byte>, bufLen: nat, ghost j0: nat, ghost name0: seq<byte>, name: seq<byte>, j: nat,
                    table: LabelTable?, ghost was: seq<Entry>)
    returns (done: bool, r: int)
    requires j <= bufLen < buf.Length && bufLen < MAX_POINTER
    requires Writing(buf[..j], bufLen, j0, name0, name, j, table, was, LabelsOf(table))
    modifies buf, if table == null then {} else {table}
    ensures buf[..j0] == old(buf[..j0])
    ensures done ==> r == Outcome(was, name, j, bufLen)
    ensures done && r >= 0 ==> r <= buf.Length && Encoded(buf[..r], j0, name0, LabelsOf(table))
    ensures done && r >= 0 ==> Known(table, was, LabelsOf(table), name0)
    ensures !done ==> 0 <= r <= bufLen && FirstDot(name) < |name|
    ensures !done ==> Writing(buf[..r], bufLen, j0, name0, name[FirstDot(name) + 1..], r, table, was, LabelsOf(table))
  {
    ghost var packet := buf[..j];
    var ref := Lookup(table, name, packet, j0, name0, j, was);
    if ref >= 0 {
      assert packet[..j0] == buf[..j0];
      done := true;
      r := PointTo(buf, bufLen, j0, name0, name, j, ref, was, LabelsOf(table));
    } else {
      done, r := WriteWord(buf, bufLen, j0, name0, name, j, table, was);
    }
  }

  /** The loop of dnsname_to_labels. */
  method WriteLabels(buf: array<byte>, bufLen: nat, j0: nat, name0: seq<byte>, table: LabelTable?) returns (r: int)
    requires j0 <= bufLen < buf.Length && bufLen < MAX_POINTER && 0 !in name0
    requires TableOk(buf[..j0], LabelsOf(table))
    modifies buf, if table == null then {} else {table}
    ensures buf[..j0] == old(buf[..j0])
    ensures r == Outcome(old(LabelsOf(table)), name0, j0, bufLen)
    ensures r >= 0 ==> r <= buf.Length && Encoded(buf[..r], j0, name0, LabelsOf(table))
    ensures r >= 0 ==> Known(table, old(LabelsOf(table)), LabelsOf(table), name0)
  {
    var name, j: nat := name0, j0;
    ghost var was := LabelsOf(table);
    MidwayFirst(buf[..j0], name0, was);
    while true
      invariant j <= bufLen && buf[..j0] == old(buf[..j0])
      invariant Writing(buf[..j], bufLen, j0, name0, name, j, table, was, LabelsOf(table))
      decreases |name|
    {
      var done;
      done, r := WriteLabel(buf, bufLen, j0, name0, name, j, table, was);
      if done {
        return;
      }
      j, name := r, name[FirstDot(name) + 1..];
    }
  }

  /**
   * dnsname_to_labels. A name that has been written is one that can be read: at its first byte it
   * says what it means, and so does every suffix in the table. Which names can be written, and how
   * far they reach, is exact; a name that Overruns reaches one byte further than it may.
   */
  method NameToLabels(buf: array<byte>, bufLen: nat, j0: nat, name0: seq<byte>, table: LabelTable?) returns (r: int)
    requires j0 <= bufLen < buf.Length && bufLen < MAX_POINTER && 0 !in name0
    requires TableOk(buf[..j0], LabelsOf(table))
    modifies buf, if table == null then {} else {table}
    ensures buf[..j0] == old(buf[..j0])
    ensures if |name0| > MAX_NAME then r == -2 else Reaches(old(LabelsOf(table)), name0, j0, bufLen, r)
    ensures r == bufLen + 1 <==> Overruns(old(LabelsOf(table)), name0, j0, bufLen)
    ensures table == null ==> (r >= 0 <==> |name0| <= MAX_NAME && ShortLabels(name0) && j0 + |name0| + 1 <= bufLen)
    ensures table == null && r >= 0 ==> r == j0 + PlainLength(name0)
    ensures r < 0 ==> r == -1 || r == -2
    ensures r == -1 ==> !ShortLabels(name0)
    ensures |name0| <= MAX_NAME && ShortLabels(name0) && j0 + |name0| + 2 <= bufLen ==> r >= 0
    ensures r >= 0 ==> j0 < r <= bufLen + 1 && Encoded(buf[..r], j0, name0, LabelsOf(table))
    ensures r <= j0 + |name0| + 2
    ensures r >= 0 && Knows(old(LabelsOf(table)), name0) ==> r == j0 + 2
    ensures r >= 0 && table != null && |old(LabelsOf(table))| != MAX_LABELS ==> Knows(LabelsOf(table), name0)
  {
    ghost var was := LabelsOf(table);
    if |name0| > MAX_NAME {
      r := -2;
    } else {
      r := WriteLabels(buf, bufLen, j0, name0, table);
    }
    OutcomeMeans(was, name0, j0, bufLen, r);
  }

  /** "abc", written into four bytes, takes five. */
  method OneByteTooFar() returns (r: int)
    ensures r == 4 + 1
  {
    var buf := new byte[5];
    var name: seq<byte> := [97, 98, 99];
    assert FirstDot(name) == 3;
    r := NameToLabels(buf, 4, 0, name, null);
  }

  /** A name that stands in the message already costs two bytes, as long as the table was not full. */
  method WriteTwice(buf: array<byte>, bufLen: nat, j0: nat, name: seq<byte>, table: LabelTable) returns (r: int, r': int)
    requires j0 <= bufLen < buf.Length && bufLen < MAX_POINTER && 0 !in name
    requires TableOk(buf[..j0], table.labels) && |table.labels| != MAX_LABELS
    modifies buf, table
    ensures 0 <= r <= bufLen && r' >= 0 ==>
      r' == r + 2 <= buf.Length && Decodes(buf[..r'], j0, name) && Decodes(buf[..r'], r, name)
  {
    r := NameToLabels(buf, bufLen, j0, name, table);
    r' := -1;
    if 0 <= r <= bufLen {
      ghost var packet := buf[..r];
      r' := NameToLabels(buf, bufLen, r, name, table);
      if r' >= 0 {
        assert packet <= buf[..r'];
        DecodesExtends(packet, buf[..r'], j0, name);
      }
    }
  }

  lemma {:induction false} EndStays(packet: seq<byte>, longer: seq<byte>, p: nat, labels: seq<seq<byte>>, jumps: nat)
    requires Derives(packet, p, labels, jumps) && packet <= longer
    ensures EndOf(longer, p) == EndOf(packet, p)
    decreases |packet| - p
  {
    assert longer[p] == packet[p];
    if 0 < packet[p] <= MAX_LABEL {
      EndStays(packet, longer, p + 1 + packet[p], labels[1..], jumps);
    }
  }

  /** One part of a message: a name, or bytes of any other kind. */
  datatype Item = Raw(bytes: seq<byte>) | Domain(name: seq<byte>)

  /** Item i of a message that is read back: it begins at starts[i], and at starts[i + 1] the next one does. */
  ghost predicate ItemOk(packet: seq<byte>, items: seq<Item>, starts: seq<nat>, i: nat)
    requires i < |items| < |starts|
  {
    items[i].Domain? ==>
      && |items[i].name| <= MAX_NAME && Decodes(packet, starts[i], items[i].name)
      && (Clean(items[i].name) ==> EndOf(packet, starts[i]) == starts[i + 1])
  }

  lemma ItemStays(packet: seq<byte>, longer: seq<byte>, items: seq<Item>, starts: seq<nat>, items': seq<Item>, starts': seq<nat>, i: nat)
    requires i < |items| < |starts| && ItemOk(packet, items, starts, i) && packet <= longer
    requires items <= items' && starts <= starts' && |items'| < |starts'|
    ensures ItemOk(longer, items', starts', i)
  {
    assert items'[i] == items[i] && starts'[i] == starts[i] && starts'[i + 1] == starts[i + 1];
    if items[i].Domain? {
      DecodesExtends(packet, longer, starts[i], items[i].name);
      var jumps: nat :| jumps <= starts[i] && Derives(packet, starts[i], Meaning(items[i].name), jumps);
      EndStays(packet, longer, starts[i], Meaning(items[i].name), jumps);
    }
  }

  /** The bytes of an item that is not a name. */
  method PutRaw(buf: array<byte>, bufLen: nat, j: nat, bytes: seq<byte>) returns (r: int)
    requires j <= bufLen <= buf.Length
    modifies buf
    ensures r == if j + |bytes| > bufLen then -2 else j + |bytes|
    ensures buf[..j] == old(buf[..j])
    ensures r >= 0 ==> buf[j..r] == bytes
  {
    if j + |bytes| > bufLen {
      return -2;
    }
    forall i | 0 <= i < |bytes| {
      buf[j + i] := bytes[i];
    }
    r := j + |bytes|;
  }

  /** With one item more in place, all items before it are still there. */
  lemma ItemsStay(packet: seq<byte>, longer: seq<byte>, items: seq<Item>, starts: seq<nat>, item: Item, r: nat)
    requires packet <= longer && |starts| == |items| + 1
    requires forall i :: 0 <= i < |items| ==> ItemOk(packet, items, starts, i)
    requires ItemOk(longer, items + [item], starts + [r], |items|)
    ensures forall i :: 0 <= i <= |items| ==> ItemOk(longer, items + [item], starts + [r], i)
  {
    forall i | 0 <= i <= |items|
      ensures ItemOk(longer, items + [item], starts + [r], i)
    {
      if i < |items| {
        ItemStays(packet, longer, items, starts, items + [item], starts + [r], i);
      }
    }
  }

  /** The room an item needs at most, whatever stands before it: a pointer can take the place of the last zero. */
  function Cost(item: Item): nat {
    if item.Raw? then |item.bytes| else |item.name| + 2
  }

  function Costs(items: seq<Item>): nat {
    if items == [] then 0 else Costs(items[..|items| - 1]) + Cost(items[|items| - 1])
  }

  /** An item that can be written. */
  ghost predicate Good(item: Item) {
    item.Domain? ==> |item.name| <= MAX_NAME && ShortLabels(item.name)
  }

  lemma {:induction false} CostsGrow(items: seq<Item>, k: nat)
    requires k < |items|
    ensures Costs(items[..k + 1]) == Costs(items[..k]) + Cost(items[k]) <= Costs(items)
    decreases |items| - k
  {
    assert items[..k + 1][..k] == items[..k];
    if k + 1 < |items| {
      CostsGrow(items, k + 1);
    } else {
      assert items[..k + 1] == items;
    }
  }

  /** One item more. */
  method PutItem(buf: array<byte>, bufLen: nat, j: nat, item: Item, table: LabelTable,
                 ghost items: seq<Item>, ghost starts: seq<nat>)
    returns (r: int)
    requires j <= bufLen < buf.Length && bufLen < MAX_POINTER && (item.Domain? ==> 0 !in item.name)
    requires TableOk(buf[..j], table.labels) && |starts| == |items| + 1 && starts[|items|] == j
    requires forall i :: 0 <= i < |items| ==> ItemOk(buf[..j], items, starts, i)
    modifies buf, table
    ensures r < 0 || j <= r <= bufLen + 1
    ensures Good(item) && j + Cost(item) <= bufLen ==> 0 <= r <= j + Cost(item)
    ensures r >= 0 ==> TableOk(buf[..r], table.labels)
    ensures r >= 0 ==> forall i :: 0 <= i <= |items| ==> ItemOk(buf[..r], items + [item], starts + [r], i)
  {
    ghost var before := buf[..j];
    if item.Raw? {
      r := PutRaw(buf, bufLen, j, item.bytes);
    } else {
      r := NameToLabels(buf, bufLen, j, item.name, table);
    }
    if r >= 0 {
      assert before <= buf[..r];
      if item.Raw? {
        TableStays(before, buf[..r], table.labels);
      }
      ItemsStay(before, buf[..r], items, starts, item, r);
    }
  }

  lemma TableStays(packet: seq<byte>, longer: seq<byte>, labels: seq<Entry>)
    requires TableOk(packet, labels) && packet <= longer
    ensures TableOk(longer, labels)
  {
    forall i | 0 <= i < |labels|
      ensures EntryOk(longer, labels[i])
    {
      assert EntryOk(packet, labels[i]);
      DecodesExtends(packet, longer, labels[i].pos, labels[i].v);
    }
  }

  /** A message, written item after item with one table; a failure gives it up. */
  method Build(items: seq<Item>, bufLen: nat) returns (r: int, buf: array<byte>, starts: seq<nat>)
    requires bufLen < MAX_POINTER && forall i :: 0 <= i < |items| && items[i].Domain? ==> 0 !in items[i].name
    ensures fresh(buf) && r <= buf.Length
    ensures (forall i :: 0 <= i < |items| ==> Good(items[i])) && Costs(items) <= bufLen ==> 0 <= r <= Costs(items)
    ensures r >= 0 ==> |starts| == |items| + 1 && starts[|items|] == r
    ensures r >= 0 ==> forall i :: 0 <= i < |items| ==> ItemOk(buf[..r], items, starts, i)
  {
    buf := new byte[bufLen + 1];
    var table := new LabelTable();
    r, starts := 0, [0];
    for k := 0 to |items|
      invariant 0 <= r <= bufLen && TableOk(buf[..r], table.labels)
      invariant |starts| == k + 1 && starts[k] == r
      invariant (forall i :: 0 <= i < |items| ==> Good(items[i])) && Costs(items) <= bufLen ==> r <= Costs(items[..k])
      invariant forall i :: 0 <= i < k ==> ItemOk(buf[..r], items[..k], starts, i)
    {
      assert items[..k + 1] == items[..k] + [items[k]];
      CostsGrow(items, k);
      r := PutItem(buf, bufLen, r, items[k], table, items[..k], starts);
      if r < 0 || (r > bufLen && k + 1 < |items|) {
        return -2, buf, starts;
      }
      starts := starts + [r];
      if r > bufLen {
        assert items[..|items|] == items;
        return;
      }
    }
    assert items[..|items|] == items;
  }

  /** The bytes at the front of a C string buffer. */
  ghost predicate Says(out: array<byte>, name: seq<byte>)
    reads out
  {
    |name| < out.Length && out[..|name|] == name && out[|name|] == 0
  }

  /**
   * What has been written can be read back: name_parse takes it, gives out what the name means,
   * which is the name itself unless it has an empty label, and goes on behind it.
   */
  method ReadName(packet: seq<byte>, p: nat, ghost name: seq<byte>) returns (out: array<byte>, next: nat)
    requires Decodes(packet, p, name) && |name| <= MAX_NAME
    ensures Says(out, Joined(Meaning(name))) && next == EndOf(packet, p)
    ensures Plain(name) ==> Says(out, name)
  {
    out := new byte[MAX_NAME + 1];
    MeaningIsName(name);
    ghost var jumps: nat :| jumps <= p && Derives(packet, p, Meaning(name), jumps);
    var ok;
    ghost var labels;
    ok, next, labels := NameParse(packet, p, out);
    ghost var k: nat :| Derives(packet, p, labels, k);
    OneReading(packet, p, Meaning(name), jumps, labels, k);
  }

  /** Every name of a message is read back, and behind each clean one stands the next item. */
  method BuildAndRead(items: seq<Item>, bufLen: nat) returns (r: int, names: seq<array<byte>>, starts: seq<nat>, ends: seq<nat>)
    requires bufLen < MAX_POINTER && forall i :: 0 <= i < |items| && items[i].Domain? ==> 0 !in items[i].name
    ensures (forall i :: 0 <= i < |items| ==> Good(items[i])) && Costs(items) <= bufLen ==> r >= 0
    ensures r >= 0 ==> |names| == |ends| == |items| && |starts| == |items| + 1
    ensures r >= 0 ==> forall i :: 0 <= i < |items| && items[i].Domain? ==>
      Says(names[i], Joined(Meaning(items[i].name))) && (Clean(items[i].name) ==> ends[i] == starts[i + 1])
  {
    var buf;
    r, buf, starts := Build(items, bufLen);
    names, ends := [], [];
    if r < 0 {
      return;
    }
    var packet := buf[..r];
    for i := 0 to |items|
      invariant |names| == |ends| == i
      invariant forall k :: 0 <= k < i && items[k].Domain? ==>
        Says(names[k], Joined(Meaning(items[k].name))) && (Clean(items[k].name) ==> ends[k] == starts[k + 1])
    {
      assert ItemOk(packet, items, starts, i);
      var out, next := new byte[0], 0;
      if items[i].Domain? {
        out, next := ReadName(packet, starts[i], items[i].name);
      }
      names, ends := names + [out], ends + [next];
    }
  }

  /** The 16-bit number at position p, most significant byte first. */
  function Get16(packet: seq<byte>, p: nat): nat
    requires p + 2 <= |packet|
  {
    var high: int := packet[p];
    high * 256 + packet[p + 1]
  }

  function Bytes16(x: nat): (s: seq<byte>)
    requires x < 0x10000
  {
    [x / 256, x % 256]
  }

  /** Six numbers of 16 bits: the header of a query with one question. */
  function Header(transId: nat): (h: seq<byte>)
    requires transId < 0x10000
    ensures |h| == 12
  {
    Bytes16(transId) + Bytes16(0x0100) + Bytes16(1) + Bytes16(0) + Bytes16(0) + Bytes16(0)
  }

  /** What the first twelve and the last four bytes of a query say. */
  lemma QuerySays(packet: seq<byte>, transId: nat, qtype: nat, qclass: nat)
    requires transId < 0x10000 && qtype < 0x10000 && qclass < 0x10000 && |packet| >= 16
    requires packet[..12] == Header(transId) && packet[|packet| - 4..] == Bytes16(qtype) + Bytes16(qclass)
    ensures Get16(packet, 0) == transId && Get16(packet, 2) == 0x0100 && Get16(packet, 4) == 1
    ensures packet[..12] == [transId / 256, transId % 256, 1, 0, 0, 1, 0, 0, 0, 0, 0, 0]
    ensures Get16(packet, |packet| - 4) == qtype && Get16(packet, |packet| - 2) == qclass
    ensures packet[|packet| - 4..] == [qtype / 256, qtype % 256, qclass / 256, qclass % 256]
  {
    var tail := packet[|packet| - 4..];
    assert forall i :: 0 <= i < 12 ==> packet[i] == packet[..12][i];
    assert forall i :: |packet| - 4 <= i < |packet| ==> packet[i] == tail[i - (|packet| - 4)];
  }

  /** evdns_request_data_build: a header, a name without compression, and the type and class behind it. */
  method RequestDataBuild(name: seq<byte>, transId: nat, qtype: nat, qclass: nat, buf: array<byte>, bufLen: nat) returns (r: int)
    requires transId < 0x10000 && qtype < 0x10000 && qclass < 0x10000 && 0 !in name
    requires bufLen < buf.Length && bufLen < MAX_POINTER
    modifies buf
    ensures r >= 0 ==> 16 < r <= bufLen && buf[..12] == Header(transId) && Decodes(buf[..r], 12, name)
    ensures r >= 0 ==> Get16(buf[..r], 0) == transId && Get16(buf[..r], 2) == 0x0100 && Get16(buf[..r], 4) == 1
    ensures r >= 0 ==> buf[..r][..12] == [transId / 256, transId % 256, 1, 0, 0, 1, 0, 0, 0, 0, 0, 0]
    ensures r >= 0 ==> Get16(buf[..r], r - 4) == qtype && Get16(buf[..r], r - 2) == qclass
    ensures r >= 0 ==> buf[..r][r - 4..] == [qtype / 256, qtype % 256, qclass / 256, qclass % 256]
    ensures r >= 0 && Clean(name) ==> EndOf(buf[..r], 12) == r - 4
    ensures r < 0 ==> r == -1 || r == -2
    ensures r >= 0 <==> |name| <= 255 && ShortLabels(name) && 16 + PlainLength(name) <= bufLen
    ensures r >= 0 ==> r == 16 + PlainLength(name)
  {
    r := PutRaw(buf, bufLen, 0, Header(transId));
    if r < 0 {
      return -1;
    }
    r := NameToLabels(buf, bufLen, 12, name, null);
    if r < 0 {
      return;
    }
    if r > bufLen {
      return -1;
    }
    ghost var packet := buf[..r];
    r := PutRaw(buf, bufLen, r, Bytes16(qtype) + Bytes16(qclass));
    if r < 0 {
      return -1;
    }
    assert packet <= buf[..r];
    assert buf[..r][..12] == buf[..12] && buf[..r][r - 4..] == buf[r - 4..r];
    QuerySays(buf[..r], transId, qtype, qclass);
    ghost var jumps: nat :| jumps <= 12 && Derives(packet, 12, Meaning(name), jumps);
    DecodesExtends(packet, buf[..r], 12, name);
    EndStays(packet, buf[..r], 12, Meaning(name), jumps);
  }
}
