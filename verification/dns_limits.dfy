/** Exactly which messages come back from the decoder, and what stops the others. */
module DnsLimits {
  import opened Bytes
  import opened DnsNames
  import opened DnsMessage
  import opened DnsEncode
  import opened DnsDecode
  import opened DnsTable
  import opened DnsRoundTrip
  import opened DnsHeader
  import opened DnsCompression

  /* ---- pointer chains ---- */

  /** No name, written after those before it, goes through more than one pointer. */
  predicate Shallow(t: Chains, es: seq<Entry>)
    decreases |es|
  {
    es == [] || (Depth(t, es[0].name) <= 1 && Shallow(Learn(t, es[0].name), es[1..]))
  }

  lemma {:induction false} ShallowAppended(t: Chains, a: seq<Entry>, b: seq<Entry>)
    ensures Shallow(t, a + b) <==> Shallow(t, a) && Shallow(LearnEntries(t, a), b)
    decreases |a|
  {
    if a == [] {
      assert a + b == b;
    } else {
      assert (a + b)[1..] == a[1..] + b;
      ShallowAppended(Learn(t, a[0].name), a[1..], b);
    }
  }

  lemma {:induction false} QuestsShallow(t: Chains, qs: seq<Quest>)
    ensures QuestsFault(OneHop, t, qs) == NoFault <==> AllNamed(qs) && Shallow(t, QuestEntries(qs))
    ensures QuestsFault(OneHop, t, qs) == Fault(RecursivePointer) ==> !Shallow(t, QuestEntries(qs))
    ensures AllNamed(qs) ==> QuestsFault(OneHop, t, qs) != Fault(EmptyName)
    decreases |qs|
  {
    if qs != [] {
      QuestEntriesRest(qs);
      assert AllNamed(qs) <==> qs[0].name != [] && AllNamed(qs[1..]);
      QuestsShallow(Learn(t, qs[0].name), qs[1..]);
    }
  }

  lemma {:induction false} RecordsShallow(t: Chains, rs: seq<Record>)
    ensures RecordsFault(OneHop, t, rs) == if Shallow(t, RecordEntries(rs)) then NoFault else Fault(RecursivePointer)
    decreases |rs|
  {
    if rs != [] {
      RecordEntriesRest(rs);
      RecordsShallow(Learn(t, rs[0].name), rs[1..]);
    }
  }

  lemma MessageShallow(m: Msg)
    ensures MessageFault(OneHop, m) == NoFault <==> AllNamed(m.quests) && Shallow(map[], Entries(m))
    ensures AllNamed(m.quests) && !Shallow(map[], Entries(m)) ==> MessageFault(OneHop, m) == Fault(RecursivePointer)
    ensures !AllNamed(m.quests) && Shallow(map[], Entries(m)) ==> MessageFault(OneHop, m) == Fault(EmptyName)
  {
    var qs, rs, xs := QuestEntries(m.quests), RecordEntries(m.answers), RecordEntries(m.records);
    var t1 := LearnEntries(map[], qs);
    QuestsShallow(map[], m.quests);
    RecordsShallow(t1, m.answers);
    RecordsShallow(LearnEntries(t1, rs), m.records);
    ShallowAppended(map[], qs, rs);
    ShallowAppended(map[], qs + rs, xs);
    LearnAppended(map[], qs, rs);
    QuestFaults(OneHop, map[], m.quests);
  }

  lemma {:induction false} LearnAppended(t: Chains, a: seq<Entry>, b: seq<Entry>)
    ensures LearnEntries(t, a + b) == LearnEntries(LearnEntries(t, a), b)
    decreases |a|
  {
    if a == [] {
      assert a + b == b;
    } else {
      assert (a + b)[1..] == a[1..] + b;
      LearnAppended(Learn(t, a[0].name), a[1..], b);
    }
  }

  lemma {:induction false} QuestFaults(mode: Mode, t: Chains, qs: seq<Quest>)
    ensures QuestsFault(mode, t, qs) in {NoFault, Fault(EmptyName), Fault(RecursivePointer), Fault(NotEnoughData)}
    ensures mode == OneHop ==> QuestsFault(mode, t, qs) != Fault(NotEnoughData)
    decreases |qs|
  {
    if qs != [] {
      QuestFaults(mode, Learn(t, qs[0].name), qs[1..]);
    }
  }

  /** A message comes back whole, to the last byte, exactly when its questions are named and none
      of its names goes through two pointers. With named questions the only error is that of a
      recursive pointer; with shallow names, that of a missing one. */
  lemma DecodesIffShallow(m: Msg)
    requires Encodable(m)
    ensures |Encoded(m)| >= 12
    ensures var p := ParseMessage(OneHop, Encoded(m));
            && (p.Done? <==> AllNamed(m.quests) && Shallow(map[], Entries(m)))
            && (p.Done? ==> p == Done(Sections(ReadHeader(Encoded(m)), m.quests, m.answers, m.records), |Encoded(m)|))
            && (p.Fail? && AllNamed(m.quests) ==> p == Fail(RecursivePointer))
            && (p.Fail? && Shallow(map[], Entries(m)) ==> p == Fail(EmptyName))
  {
    RoundTrip(OneHop, m);
    MessageShallow(m);
  }

  /** Questions b.c and x.b.c, and an answer for x.b.c: the answer points at the second
      question, which ends in a pointer to the first. */
  const CHAINED := Msg(1, OPCODE_QUERY, RCODE_OK,
                       [AddressQuest([98, DOT, 99]), AddressQuest([120, DOT, 98, DOT, 99])],
                       [AddressAnswer([120, DOT, 98, DOT, 99], [1, 2, 3, 4], 60)], [])

  lemma ChainedNames()
    ensures FirstDot([98, DOT, 99]) == 1 && FirstDot([120, DOT, 98, DOT, 99]) == 1 && FirstDot([99]) == 1
    ensures Suffix([120, DOT, 98, DOT, 99]) == [98, DOT, 99]
    ensures Suffix([98, DOT, 99]) == [99] && Suffix([99]) == []
  {
    var x: Name, b: Name, c: Name := [120, DOT, 98, DOT, 99], [98, DOT, 99], [99];
    assert DotFrom(b, 1) == 1 && DotFrom(x, 1) == 1 && DotFrom(c, 1) == 1;
    assert x[2..] == b && b[2..] == c;
  }

  lemma ChainedIsDeep()
    ensures AllNamed(CHAINED.quests) && NamesWellFormed(Entries(CHAINED))
    ensures !Shallow(map[], Entries(CHAINED))
  {
    var x: Name, b: Name, c: Name := [120, DOT, 98, DOT, 99], [98, DOT, 99], [99];
    ChainedNames();
    var es := Entries(CHAINED);
    assert es[0].name == b && es[1].name == x && es[2].name == x && |es| == 3;
    assert WellFormed([]) && WellFormed(c) && WellFormed(b) && WellFormed(x);
    ChainTable();
    var t1, t2 := Learn(map[], b), Learn(Learn(map[], b), x);
    assert Depth(t2, x) == 2;
    assert !Shallow(t2, es[2..]);
    assert es[1..][1..] == es[2..];
  }

  /** What is known of b.c and x.b.c once both are written. */
  lemma ChainTable()
    ensures Learn(map[], [98, DOT, 99]) == map[[99] := 0, [98, DOT, 99] := 0]
    ensures Depth(Learn(map[], [98, DOT, 99]), [120, DOT, 98, DOT, 99]) == 1
    ensures Learn(Learn(map[], [98, DOT, 99]), [120, DOT, 98, DOT, 99]) ==
            map[[99] := 0, [98, DOT, 99] := 0, [120, DOT, 98, DOT, 99] := 1]
  {
    var x: Name, b: Name, c: Name := [120, DOT, 98, DOT, 99], [98, DOT, 99], [99];
    ChainedNames();
    var t1 := Learn(map[], b);
    assert Learn(map[], c) == map[c := 0];
    assert t1 == map[c := 0, b := 0];
    assert Depth(t1, x) == Depth(t1, b) == 1;
    assert Learn(t1, b) == t1 && x !in t1;
  }

  lemma ChainedIsEncodable()
    ensures Encodable(CHAINED)
  {
    ChainedNames();
    assert WellFormed([]) && WellFormed([99]) && WellFormed([98, DOT, 99]) && WellFormed([120, DOT, 98, DOT, 99]);
    CompactEncodable(CHAINED, 5);
  }

  /** A message that can be encoded, and that the decoder then refuses. */
  lemma ChainedIsRefused()
    ensures Encodable(CHAINED)
    ensures ParseMessage(OneHop, Encoded(CHAINED)) == Fail(RecursivePointer)
  {
    ChainedIsDeep();
    ChainedIsEncodable();
    DecodesIffShallow(CHAINED);
  }

  /* ---- what is stored ---- */

  /** What Decode leaves in a fresh message when it accepts this input. */
  function Stored(d: Sections): Msg {
    Msg(d.header.id, d.header.opcode, RCODE_OK, d.quests, d.answers, [])
  }

  /** A message is decoded to just what it was exactly when it is a standard query or response,
      without a response code or additional records, and its names can be read back. */
  lemma StoredUnchanged(m: Msg)
    requires Encodable(m)
    ensures |Encoded(m)| >= 12
    ensures var p := ParseMessage(OneHop, Encoded(m));
            p.Done? && Stored(p.value) == m <==>
            && m.opcode == OPCODE_QUERY && m.rcode == RCODE_OK && m.records == []
            && AllNamed(m.quests) && Shallow(map[], Entries(m))
  {
    DecodesIffShallow(m);
    HeaderSurvives(m);
    OpcodeSurvives(m);
  }

  /* ---- offsets out of reach ---- */

  /** The data of a first answer, 16 KiB that begin with `head` at offset 23, push the name of the
      second out of a pointer's reach. The third repeats that name. */
  function FarMessage(head: bytes): Msg
    requires |head| == 3
  {
    Msg(1, OPCODE_QUERY, RCODE_OK, [],
        [Record([], 0, 0, 0, head + seq(REACH - 3, _ => 0)), Record([97], 0, 0, 0, []), Record([97], 0, 0, 0, [])], [])
  }

  /** The entries of such a message. */
  predicate FarEntries(es: seq<Entry>, head: bytes) {
    && |es| == 3 && |head| == 3
    && es[0].name == [] && es[1].name == es[2].name == [97]
    && |es[0].tail| == REACH + 10 && es[0].tail[10..13] == head
    && |es[1].tail| == 10
  }

  lemma FarMessageEntries(head: bytes)
    requires |head| == 3
    ensures FarEntries(Entries(FarMessage(head)), head)
  {
    var m := FarMessage(head);
    RecordTailFields(m.answers[0]);
    RecordTailFields(m.answers[1]);
    var tail := RecordTail(m.answers[0]);
    assert tail[10..13] == tail[10..10 + REACH][..3];
    assert Entries(m)[0].tail == tail;
  }

  lemma PutRootEntry(g: Enc, e: Entry)
    requires g.table == map[] && e.name == []
    ensures PutEntry(g, e) == Enc(g.buf + [0] + e.tail, map[])
    ensures Fits(g, e.name, {}) && Far(g, e.name, {}) == {}
  {
  }

  /** Writing the name a for the first time, beyond reach. */
  lemma PutFarName(g: Enc)
    requires g.table == map[] && |g.buf| == 0x4017
    ensures PutName(g, [97]) == Enc(g.buf + [1, 97, 0], map[[97] := 0x4017])
    ensures Far(g, [97], {}) == {[97]}
  {
    var n: Name := [97];
    assert FirstDot(n) == 1 by { assert DotFrom(n, 1) == 1; }
    assert Suffix(n) == [] && Prefix(n) == n;
    var h := PutLabel(g, n);
    assert PutName(h, []) == h.Append([0]);
    assert Far(h, [], {n}) == {n};
  }

  /** Before the third name: what is at offset 23, and what will be written. */
  lemma FarStages(g0: Enc, es: seq<Entry>, head: bytes) returns (g: Enc)
    requires |g0.buf| == 12 && g0.table == map[] && FarEntries(es, head)
    ensures g == PutEntries(g0, es[..2])
    ensures PutEntries(g0, es) == PutEntry(g, es[2])
    ensures |g.buf| > 26 && g.buf[23..26] == head
    ensures PutName(g, [97]).buf == g.buf + PointerBytes(0x4017)
    ensures !EntriesFit(g0, es, {})
  {
    var g1 := PutEntry(g0, es[0]);
    PutRootEntry(g0, es[0]);
    assert g1.buf[23..26] == es[0].tail[10..13];
    PutFarName(g1);
    g := PutEntry(g1, es[1]);
    assert g.buf[23..26] == g1.buf[23..26];
    PutPair(g0, es[0], es[1]);
    assert es[..2] == [es[0], es[1]] && es == es[..2] + [es[2]];
    PutAppended(g0, es[..2], [es[2]]);
    assert PutEntries(PutEntry(g, es[2]), [es[2]][1..]) == PutEntry(g, es[2]);
    assert !Fits(g, es[2].name, {[97]});
    assert !EntriesFit(g1, es[1..], {}) by {
      assert es[1..][1..] == es[2..] && es[2..][0] == es[2];
      assert !EntriesFit(g, es[2..], {[97]});
    }
  }

  lemma PutPair(g: Enc, a: Entry, b: Entry)
    ensures PutEntries(g, [a, b]) == PutEntry(PutEntry(g, a), b)
  {
    var rest := [b];
    assert [a, b][1..] == rest;
    assert PutEntries(PutEntry(g, a), rest) == PutEntries(PutEntry(PutEntry(g, a), b), []);
  }

  /** The pointer leads 16 KiB too low, to offset 23. */
  lemma FarPointer(mode: Mode, buf: bytes, more: bytes, labels: seq<bytes>)
    requires |buf| > 26 && buf + PointerBytes(0x4017) <= more
    requires Read(buf, 23, 23) == Reading(labels, 0) && RfcLabels(labels)
    ensures ParseName(mode, more, |buf|) == Done(Join(labels), |buf| + 2)
  {
    var b := buf + PointerBytes(0x4017);
    PointerLeads(buf, 0x4017);
    ReadStable(buf, b, 23, 23, 23);
    assert Read(b, |buf|, |buf|) == Reading(labels, 1);
    ReadingParses(mode, b, more, |buf|, labels, 1);
  }

  lemma FarNameRead(mode: Mode, head: bytes, labels: seq<bytes>)
    requires |head| == 3 && RfcLabels(labels)
    requires forall buf: bytes :: |buf| > 26 && buf[23..26] == head ==> Read(buf, 23, 23) == Reading(labels, 0)
    ensures var m := FarMessage(head);
            var at := |PutEntries(Start(m), Entries(m)[..2]).buf|;
            && !EntriesFit(Start(m), Entries(m), {})
            && ParseName(mode, Encoded(m), at) == Done(Join(labels), at + 2)
  {
    var m := FarMessage(head);
    FarMessageEntries(head);
    EncodedFromStart(m);
    var g := FarStages(Start(m), Entries(m), head);
    FarPointer(mode, g.buf, Encoded(m), labels);
  }

  /** With zeros there, any reader takes the third name for the root. */
  lemma FarIsMisread(mode: Mode)
    ensures var m := FarMessage([0, 0, 0]);
            var at := |PutEntries(Start(m), Entries(m)[..2]).buf|;
            && !EntriesFit(Start(m), Entries(m), {})
            && Entries(m)[2].name == [97]
            && ParseName(mode, Encoded(m), at) == Done([], at + 2)
  {
    FarMessageEntries([0, 0, 0]);
    forall buf: bytes | |buf| > 26 && buf[23..26] == [0, 0, 0]
      ensures Read(buf, 23, 23) == Reading([], 0)
    {
      ZeroReads(buf);
    }
    FarNameRead(mode, [0, 0, 0], []);
  }

  lemma ZeroReads(buf: bytes)
    requires |buf| > 26 && buf[23..26] == [0, 0, 0]
    ensures Read(buf, 23, 23) == Reading([], 0)
  {
    assert buf[23] == buf[23..26][0];
  }

  lemma NameReads(buf: bytes)
    requires |buf| > 26 && buf[23..26] == [1, 97, 0]
    ensures Read(buf, 23, 23) == Reading([[97]], 0)
  {
    assert buf[23] == buf[23..26][0] && buf[24] == buf[23..26][1] && buf[25] == buf[23..26][2];
    assert buf[24..25] == [97];
    assert Read(buf, 25, 23) == Reading([], 0);
  }

  /** But a pointer out of reach can also be read rightly, by chance: here the data spell the name. */
  lemma FarByChance(mode: Mode)
    ensures var m := FarMessage([1, 97, 0]);
            var at := |PutEntries(Start(m), Entries(m)[..2]).buf|;
            && !EntriesFit(Start(m), Entries(m), {})
            && Entries(m)[2].name == [97]
            && ParseName(mode, Encoded(m), at) == Done([97], at + 2)
  {
    FarMessageEntries([1, 97, 0]);
    forall buf: bytes | |buf| > 26 && buf[23..26] == [1, 97, 0]
      ensures Read(buf, 23, 23) == Reading([[97]], 0)
    {
      NameReads(buf);
    }
    FarNameRead(mode, [1, 97, 0], [[97]]);
  }
}
