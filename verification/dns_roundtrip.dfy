/** What decoding an encoded message gives, under either way of following pointers. */
module DnsRoundTrip {
  import opened Bytes
  import opened DnsNames
  import opened DnsMessage
  import opened DnsEncode
  import opened DnsDecode
  import opened DnsTable

  /* ---- the cursor against the reference reading ---- */

  /** Where the reference reading finds a name, the cursor finds the same labels and stops at
      the end of the name in place, unless it would have to jump a second time. */
  lemma {:induction false} WalkAgrees(buf: bytes, pos: nat, limit: nat, mark: nat)
    requires Read(buf, pos, limit).Reading?
    ensures var r := Read(buf, pos, limit);
            ReadLabels(buf, Cursor(pos, mark)) ==
            if r.hops > JumpsLeft(Cursor(pos, mark)) then WalkFail(RecursivePointer)
            else Walk(r.labels, Cursor(if mark == 0 then WireEnd(buf, pos) else mark, 0))
    decreases limit, |buf| - pos
  {
    var length := buf[pos];
    if length == 0 {
    } else if IsPointer(length) {
      if mark == 0 {
        var target := PointerTarget(buf, pos);
        WalkAgrees(buf, target, target, pos + 2);
        JumpTaken(buf, pos);
      }
    } else {
      WalkAgrees(buf, pos + 1 + length, limit, mark);
      StepTaken(buf, Cursor(pos, mark));
    }
  }

  datatype Fault = NoFault | Fault(error: Error)

  function FirstFault(a: Fault, b: Fault): Fault {
    if a.Fault? then a else b
  }

  /** What keeps a name from being read: to this decoder, going through more than one pointer; to
      the RFC, a label that is too long. */
  function NameFault(mode: Mode, depth: nat, s: Name): Fault {
    match mode
    case OneHop => if depth > 1 then Fault(RecursivePointer) else NoFault
    case AnyHops => if RfcLabels(Labels(s)) then NoFault else Fault(NotEnoughData)
  }

  function Expect<T>(fault: Fault, value: T, next: nat): Parse<T> {
    if fault.Fault? then Fail(fault.error) else Done(value, next)
  }

  lemma NameParses(mode: Mode, g: Enc, s: Name, t: Chains, far: set<Name>, more: bytes)
    requires WellFormed(s) && Fits(g, s, far) && Sound(g, t, {}, far)
    requires PutName(g, s).buf <= more
    ensures ParseName(mode, more, |g.buf|) == Expect(NameFault(mode, Depth(t, s), s), s, |PutName(g, s).buf|)
  {
    var b := PutName(g, s).buf;
    PutEntrySound(g, Entry(s, []), t, far);
    ReadingParses(mode, b, more, |g.buf|, Labels(s), Depth(t, s));
    JoinLabels(s);
  }

  /** A name that reads to the end of b, however b goes on. */
  lemma ReadingParses(mode: Mode, b: bytes, more: bytes, pos: nat, labels: seq<bytes>, hops: nat)
    requires b <= more
    requires Read(b, pos, pos) == Reading(labels, hops) && WireEnd(b, pos) == |b|
    ensures ParseName(mode, more, pos) ==
            match mode
            case OneHop => if hops > 1 then Fail(RecursivePointer) else Done(Join(labels), |b|)
            case AnyHops => if RfcLabels(labels) then Done(Join(labels), |b|) else Fail(NotEnoughData)
  {
    ReadStable(b, more, pos, pos, pos);
    WireEndStable(b, more, pos, pos);
    WalkAgrees(more, pos, pos, 0);
  }

  /* ---- entries ---- */

  /** A question needs a name, too. */
  function QuestFault(mode: Mode, depth: nat, s: Name): Fault {
    FirstFault(NameFault(mode, depth, s), if s == [] then Fault(EmptyName) else NoFault)
  }

  lemma QuestParses(mode: Mode, g: Enc, q: Quest, t: Chains, far: set<Name>, more: bytes)
    requires WellFormed(q.name) && Fits(g, q.name, far) && Sound(g, t, {}, far)
    requires PutEntry(g, Entry(q.name, QuestTail(q))).buf <= more
    ensures ParseQuest(mode, more, |g.buf|) ==
            Expect(QuestFault(mode, Depth(t, q.name), q.name), q, |PutEntry(g, Entry(q.name, QuestTail(q))).buf|)
  {
    var b := PutName(g, q.name).buf;
    TailFollows(b, QuestTail(q), more);
    NameParses(mode, g, q.name, t, far, more);
    if QuestFault(mode, Depth(t, q.name), q.name).NoFault? {
      QuestFollows(mode, more, |g.buf|, |b|, QuestTail(q), q);
    }
  }

  lemma QuestFollows(mode: Mode, more: bytes, pos: nat, p: nat, tail: bytes, q: Quest)
    requires tail == QuestTail(q) && q.name != []
    requires p + |tail| <= |more| && more[p..p + |tail|] == tail
    requires ParseName(mode, more, pos) == Done(q.name, p)
    ensures ParseQuest(mode, more, pos) == Done(q, p + |tail|)
  {
    SubAt(more, p, tail, 0, 2);
    SubAt(more, p, tail, 2, 4);
    assert tail[0..2] == Be16(q.kind) && tail[2..4] == Be16(q.cls);
    ReadBe16(more, p, q.kind);
    ReadBe16(more, p + 2, q.cls);
  }

  /** The fixed fields of a record, and then its data, in a tail. */
  predicate RecordFields(tail: bytes, r: Record) {
    && |tail| == 10 + |r.data|
    && |r.data| < WORD16
    && tail[0..2] == Be16(r.kind) && tail[2..4] == Be16(r.cls) && tail[4..8] == Be32(r.ttl)
    && tail[8..10] == Be16(|r.data|) && tail[10..10 + |r.data|] == r.data
  }

  lemma RecordTailFields(r: Record)
    requires |r.data| < WORD16
    ensures RecordFields(RecordTail(r), r)
  {
    assert |r.data| % WORD16 == |r.data|;
  }

  lemma RecordTailReads(more: bytes, p: nat, tail: bytes, r: Record)
    requires RecordFields(tail, r)
    requires p + |tail| <= |more| && more[p..p + |tail|] == tail
    ensures GetBe16(more, p) == r.kind && GetBe16(more, p + 2) == r.cls
    ensures GetBe32(more, p + 4) == r.ttl && GetBe16(more, p + 8) == |r.data|
    ensures more[p + 10..p + 10 + |r.data|] == r.data
  {
    SubAt(more, p, tail, 0, 2);
    SubAt(more, p, tail, 2, 4);
    SubAt(more, p, tail, 4, 8);
    SubAt(more, p, tail, 8, 10);
    SubAt(more, p, tail, 10, 10 + |r.data|);
    ReadBe16(more, p, r.kind);
    ReadBe16(more, p + 2, r.cls);
    ReadBe32(more, p + 4, r.ttl);
    ReadBe16(more, p + 8, |r.data|);
  }

  lemma RecordParses(mode: Mode, g: Enc, r: Record, tail: bytes, t: Chains, far: set<Name>, more: bytes)
    requires RecordFields(tail, r)
    requires WellFormed(r.name) && Fits(g, r.name, far) && Sound(g, t, {}, far)
    requires PutEntry(g, Entry(r.name, tail)).buf <= more
    ensures ParseRecord(mode, more, |g.buf|) ==
            Expect(NameFault(mode, Depth(t, r.name), r.name), r, |PutEntry(g, Entry(r.name, tail)).buf|)
  {
    var p := NameThenTail(mode, g, Entry(r.name, tail), t, far, more);
    RecordAfterName(mode, more, |g.buf|, p, tail, r, NameFault(mode, Depth(t, r.name), r.name));
  }

  /** A name that has been written, and what follows it at p. */
  lemma NameThenTail(mode: Mode, g: Enc, e: Entry, t: Chains, far: set<Name>, more: bytes) returns (p: nat)
    requires WellFormed(e.name) && Fits(g, e.name, far) && Sound(g, t, {}, far)
    requires PutEntry(g, e).buf <= more
    ensures ParseName(mode, more, |g.buf|) == Expect(NameFault(mode, Depth(t, e.name), e.name), e.name, p)
    ensures p + |e.tail| == |PutEntry(g, e).buf| <= |more| && more[p..p + |e.tail|] == e.tail
  {
    var b := PutName(g, e.name).buf;
    p := |b|;
    TailFollows(b, e.tail, more);
    NameParses(mode, g, e.name, t, far, more);
  }

  lemma RecordAfterName(mode: Mode, more: bytes, pos: nat, p: nat, tail: bytes, r: Record, fault: Fault)
    requires RecordFields(tail, r)
    requires p + |tail| <= |more| && more[p..p + |tail|] == tail
    requires ParseName(mode, more, pos) == Expect(fault, r.name, p)
    ensures ParseRecord(mode, more, pos) == Expect(fault, r, p + |tail|)
  {
    if fault.NoFault? {
      RecordFollows(mode, more, pos, p, tail, r);
    } else {
      RecordFails(mode, more, pos, fault.error);
    }
  }

  lemma RecordFails(mode: Mode, more: bytes, pos: nat, e: Error)
    requires ParseName(mode, more, pos) == Fail(e)
    ensures ParseRecord(mode, more, pos) == Fail(e)
  {
  }

  lemma RecordFollows(mode: Mode, more: bytes, pos: nat, p: nat, tail: bytes, r: Record)
    requires RecordFields(tail, r)
    requires p + |tail| <= |more| && more[p..p + |tail|] == tail
    requires ParseName(mode, more, pos) == Done(r.name, p)
    ensures ParseRecord(mode, more, pos) == Done(r, p + |tail|)
  {
    RecordTailReads(more, p, tail, r);
  }

  predicate AllNamed(qs: seq<Quest>) {
    forall i :: 0 <= i < |qs| ==> qs[i].name != []
  }

  lemma AllNamedRest(qs: seq<Quest>)
    requires qs != []
    ensures AllNamed(qs) <==> qs[0].name != [] && AllNamed(qs[1..])
  {
  }

  /** The first question that cannot be read back. */
  function QuestsFault(mode: Mode, t: Chains, qs: seq<Quest>): Fault
    decreases |qs|
  {
    if qs == [] then NoFault
    else
      FirstFault(QuestFault(mode, Depth(t, qs[0].name), qs[0].name), QuestsFault(mode, Learn(t, qs[0].name), qs[1..]))
  }

  function RecordsFault(mode: Mode, t: Chains, rs: seq<Record>): Fault
    decreases |rs|
  {
    if rs == [] then NoFault
    else
      FirstFault(NameFault(mode, Depth(t, rs[0].name), rs[0].name), RecordsFault(mode, Learn(t, rs[0].name), rs[1..]))
  }

  lemma {:induction false} QuestsParse(mode: Mode, g: Enc, qs: seq<Quest>, t: Chains, far: set<Name>, more: bytes)
    requires NamesWellFormed(QuestEntries(qs)) && EntriesFit(g, QuestEntries(qs), far) && Sound(g, t, {}, far)
    requires PutEntries(g, QuestEntries(qs)).buf <= more
    ensures ParseQuests(mode, more, |g.buf|, |qs|) ==
            Expect(QuestsFault(mode, t, qs), qs, |PutEntries(g, QuestEntries(qs)).buf|)
    decreases |qs|
  {
    if qs != [] {
      var es := QuestEntries(qs);
      var g1 := PutEntry(g, es[0]);
      FirstEntry(g, es, t, far);
      QuestParses(mode, g, qs[0], t, far, more);
      QuestEntriesRest(qs);
      QuestsParse(mode, g1, qs[1..], Learn(t, qs[0].name), Far(g, qs[0].name, far), more);
      JoinQuests(mode, more, |g.buf|, qs, |g1.buf|, QuestFault(mode, Depth(t, qs[0].name), qs[0].name),
                 QuestsFault(mode, Learn(t, qs[0].name), qs[1..]), |PutEntries(g, es).buf|);
    }
  }

  lemma JoinQuests(mode: Mode, buf: bytes, pos: nat, qs: seq<Quest>, next: nat, first: Fault, rest: Fault, end: nat)
    requires qs != []
    requires ParseQuest(mode, buf, pos) == Expect(first, qs[0], next)
    requires ParseQuests(mode, buf, next, |qs| - 1) == Expect(rest, qs[1..], end)
    ensures ParseQuests(mode, buf, pos, |qs|) == Expect(FirstFault(first, rest), qs, end)
  {
    if first.NoFault? {
      ConsQuest(mode, buf, pos, qs, next);
    }
  }

  lemma ConsQuest(mode: Mode, buf: bytes, pos: nat, qs: seq<Quest>, next: nat)
    requires qs != [] && ParseQuest(mode, buf, pos) == Done(qs[0], next)
    ensures ParseQuests(mode, buf, pos, |qs|) == Before([qs[0]], ParseQuests(mode, buf, next, |qs| - 1))
    ensures [qs[0]] + qs[1..] == qs
  {
  }

  lemma {:induction false} RecordsParse(mode: Mode, g: Enc, rs: seq<Record>, t: Chains, far: set<Name>, more: bytes)
    requires DataFits(rs)
    requires NamesWellFormed(RecordEntries(rs)) && EntriesFit(g, RecordEntries(rs), far) && Sound(g, t, {}, far)
    requires PutEntries(g, RecordEntries(rs)).buf <= more
    ensures ParseRecords(mode, more, |g.buf|, |rs|) ==
            Expect(RecordsFault(mode, t, rs), rs, |PutEntries(g, RecordEntries(rs)).buf|)
    decreases |rs|
  {
    if rs != [] {
      var es := RecordEntries(rs);
      var g1 := PutEntry(g, es[0]);
      FirstEntry(g, es, t, far);
      RecordTailFields(rs[0]);
      RecordParses(mode, g, rs[0], es[0].tail, t, far, more);
      RecordEntriesRest(rs);
      RecordsParse(mode, g1, rs[1..], Learn(t, rs[0].name), Far(g, rs[0].name, far), more);
      JoinRecords(mode, more, |g.buf|, rs, |g1.buf|, NameFault(mode, Depth(t, rs[0].name), rs[0].name),
                  RecordsFault(mode, Learn(t, rs[0].name), rs[1..]), |PutEntries(g, es).buf|);
    }
  }

  lemma JoinRecords(mode: Mode, buf: bytes, pos: nat, rs: seq<Record>, next: nat, first: Fault, rest: Fault, end: nat)
    requires rs != []
    requires ParseRecord(mode, buf, pos) == Expect(first, rs[0], next)
    requires ParseRecords(mode, buf, next, |rs| - 1) == Expect(rest, rs[1..], end)
    ensures ParseRecords(mode, buf, pos, |rs|) == Expect(FirstFault(first, rest), rs, end)
  {
    if first.NoFault? {
      ConsRecord(mode, buf, pos, rs, next);
    }
  }

  lemma ConsRecord(mode: Mode, buf: bytes, pos: nat, rs: seq<Record>, next: nat)
    requires rs != [] && ParseRecord(mode, buf, pos) == Done(rs[0], next)
    ensures ParseRecords(mode, buf, pos, |rs|) == Before([rs[0]], ParseRecords(mode, buf, next, |rs| - 1))
    ensures [rs[0]] + rs[1..] == rs
  {
  }

  /* ---- header ---- */

  /** All but the flag bytes survive exactly. */
  lemma HeaderParses(h: Header, more: bytes)
    requires HeaderBytes(h) <= more
    ensures var r := ReadHeader(more);
            && r.id == h.id && r.quests == h.quests && r.answers == h.answers
            && r.servers == h.servers && r.records == h.records
  {
    WordParses(h, more, 0, h.id);
    WordParses(h, more, 4, h.quests);
    WordParses(h, more, 6, h.answers);
    WordParses(h, more, 8, h.servers);
    WordParses(h, more, 10, h.records);
  }

  lemma WordParses(h: Header, more: bytes, i: nat, v: u16)
    requires HeaderBytes(h) <= more
    requires i < 11 && HeaderBytes(h)[i] == HighByte(v) && HeaderBytes(h)[i + 1] == LowByte(v)
    ensures GetBe16(more, i) == v
  {
    assert more[i] == HeaderBytes(h)[i] && more[i + 1] == HeaderBytes(h)[i + 1];
  }

  /* ---- messages ---- */

  /** What a caller must grant: counts and lengths that fit their fields, well-formed names, and
      no pointer to a suffix stored out of its reach. */
  predicate Encodable(m: Msg) {
    && |m.quests| < WORD16 && |m.answers| < WORD16 && |m.records| < WORD16
    && DataFits(m.answers) && DataFits(m.records)
    && NamesWellFormed(Entries(m))
    && EntriesFit(Start(m), Entries(m), {})
  }

  function Start(m: Msg): Enc {
    Enc(HeaderBytes(HeaderOf(m)), map[])
  }

  /** The first thing in a message that cannot be read back, judged on its names alone. */
  function MessageFault(mode: Mode, m: Msg): Fault {
    var t := LearnEntries(map[], QuestEntries(m.quests));
    var quests := QuestsFault(mode, map[], m.quests);
    var answers := RecordsFault(mode, t, m.answers);
    var records := RecordsFault(mode, LearnEntries(t, RecordEntries(m.answers)), m.records);
    FirstFault(quests, FirstFault(answers, records))
  }

  /** Decoding what was encoded: every well-formed message comes back whole and to the last
      byte, or fails with exactly the error its names foretell. */
  lemma RoundTrip(mode: Mode, m: Msg)
    requires Encodable(m)
    ensures |Encoded(m)| >= 12
    ensures ParseMessage(mode, Encoded(m)) ==
            Expect(MessageFault(mode, m),
                   Sections(ReadHeader(Encoded(m)), m.quests, m.answers, m.records),
                   |Encoded(m)|)
  {
    HeaderSurvives(m);
    CountFits(|m.quests|);
    CountFits(|m.answers|);
    CountFits(|m.records|);
    EncodedFromStart(m);
    RoundTripFrom(mode, m, Start(m), Encoded(m));
  }

  lemma EncodedFromStart(m: Msg)
    ensures Encoded(m) == PutEntries(Start(m), Entries(m)).buf
  {
    assert [] + HeaderBytes(HeaderOf(m)) == Start(m).buf;
  }

  /** The id survives any encoding, and the counts as far as they fit. */
  lemma HeaderSurvives(m: Msg)
    ensures |Encoded(m)| >= 12
    ensures var r := ReadHeader(Encoded(m));
            && r.id == m.id && r.servers == 0
            && r.quests == |m.quests| % WORD16 && r.answers == |m.answers| % WORD16 && r.records == |m.records| % WORD16
  {
    StartsWithHeader(m);
    HeaderParses(HeaderOf(m), Encoded(m));
  }

  lemma StartsWithHeader(m: Msg)
    ensures HeaderBytes(HeaderOf(m)) <= Encoded(m)
  {
    EncodedFromStart(m);
    EntriesGrow(Start(m), Entries(m));
  }

  lemma CountFits(n: nat)
    requires n < WORD16
    ensures n % WORD16 == n
  {
  }

  lemma RoundTripFrom(mode: Mode, m: Msg, start: Enc, buf: bytes)
    requires DataFits(m.answers) && DataFits(m.records)
    requires NamesWellFormed(Entries(m)) && EntriesFit(start, Entries(m), {}) && start.table == map[]
    requires buf == PutEntries(start, Entries(m)).buf
    requires |buf| >= |start.buf| == 12
    requires ReadHeader(buf).quests == |m.quests|
    requires ReadHeader(buf).answers == |m.answers| && ReadHeader(buf).records == |m.records|
    ensures ParseMessage(mode, buf) ==
            Expect(MessageFault(mode, m), Sections(ReadHeader(buf), m.quests, m.answers, m.records), |buf|)
  {
    StartSound(start);
    EntriesParse(mode, start, m, buf);
    SectionsParse(mode, buf, m);
  }

  lemma StartSound(g: Enc)
    requires g.table == map[]
    ensures Sound(g, map[], {}, {})
  {
  }

  /** The three sections, one after another, from any start. */
  ghost predicate AllParse(mode: Mode, m: Msg, buf: bytes, p0: nat, p1: nat, p2: nat) {
    var t1 := LearnEntries(map[], QuestEntries(m.quests));
    var t2 := LearnEntries(t1, RecordEntries(m.answers));
    && p0 <= |buf|
    && ParseQuests(mode, buf, p0, |m.quests|) == Expect(QuestsFault(mode, map[], m.quests), m.quests, p1)
    && ParseRecords(mode, buf, p1, |m.answers|) == Expect(RecordsFault(mode, t1, m.answers), m.answers, p2)
    && ParseRecords(mode, buf, p2, |m.records|) == Expect(RecordsFault(mode, t2, m.records), m.records, |buf|)
  }

  predicate DataFits(rs: seq<Record>) {
    forall i :: 0 <= i < |rs| ==> |rs[i].data| < WORD16
  }

  lemma EntriesParse(mode: Mode, g0: Enc, m: Msg, buf: bytes)
    requires DataFits(m.answers) && DataFits(m.records)
    requires Sound(g0, map[], {}, {})
    requires NamesWellFormed(Entries(m)) && EntriesFit(g0, Entries(m), {})
    requires buf == PutEntries(g0, Entries(m)).buf
    ensures g0.buf <= buf
    ensures exists p1, p2 :: AllParse(mode, m, buf, |g0.buf|, p1, p2)
  {
    var g1, g2 := Stages(m, g0);
    var t1 := LearnEntries(map[], QuestEntries(m.quests));
    var t2 := LearnEntries(t1, RecordEntries(m.answers));
    var far1 := FarAfter(g0, QuestEntries(m.quests), {});
    var far2 := FarAfter(g1, RecordEntries(m.answers), far1);
    QuestsParse(mode, g0, m.quests, map[], {}, buf);
    RecordsParse(mode, g1, m.answers, t1, far1, buf);
    RecordsParse(mode, g2, m.records, t2, far2, buf);
    assert AllParse(mode, m, buf, |g0.buf|, |g1.buf|, |g2.buf|);
  }

  /** The encoder's state between the sections. */
  lemma Stages(m: Msg, g0: Enc) returns (g1: Enc, g2: Enc)
    requires Sound(g0, map[], {}, {})
    requires NamesWellFormed(Entries(m)) && EntriesFit(g0, Entries(m), {})
    ensures g1 == PutEntries(g0, QuestEntries(m.quests))
    ensures g2 == PutEntries(g1, RecordEntries(m.answers))
    ensures PutEntries(g0, Entries(m)) == PutEntries(g2, RecordEntries(m.records))
    ensures NamesWellFormed(QuestEntries(m.quests)) && EntriesFit(g0, QuestEntries(m.quests), {})
    ensures NamesWellFormed(RecordEntries(m.answers)) && NamesWellFormed(RecordEntries(m.records))
    ensures var far1 := FarAfter(g0, QuestEntries(m.quests), {});
            var far2 := FarAfter(g1, RecordEntries(m.answers), far1);
            var t1 := LearnEntries(map[], QuestEntries(m.quests));
            && EntriesFit(g1, RecordEntries(m.answers), far1)
            && EntriesFit(g2, RecordEntries(m.records), far2)
            && Sound(g1, t1, {}, far1)
            && Sound(g2, LearnEntries(t1, RecordEntries(m.answers)), {}, far2)
    ensures g0.buf <= g1.buf <= g2.buf <= PutEntries(g0, Entries(m)).buf
  {
    var qs, rs, xs := QuestEntries(m.quests), RecordEntries(m.answers), RecordEntries(m.records);
    g1 := PutEntries(g0, qs);
    g2 := PutEntries(g1, rs);
    PutAppended(g0, qs, rs);
    PutAppended(g0, qs + rs, xs);
    FitsAppended(g0, qs, rs, {});
    FitsAppended(g0, qs + rs, xs, {});
    var far1 := FarAfter(g0, qs, {});
    var far2 := FarAfter(g1, rs, far1);
    SectionsWellFormed(qs, rs, xs);
    PutEntriesSound(g0, qs, map[], {});
    PutEntriesSound(g1, rs, LearnEntries(map[], qs), far1);
    EntriesGrow(g0, qs);
    EntriesGrow(g1, rs);
    EntriesGrow(g2, xs);
  }

  lemma SectionsParse(mode: Mode, buf: bytes, m: Msg)
    requires |buf| >= 12
    requires ReadHeader(buf).quests == |m.quests|
    requires ReadHeader(buf).answers == |m.answers| && ReadHeader(buf).records == |m.records|
    requires exists p1, p2 :: AllParse(mode, m, buf, 12, p1, p2)
    ensures ParseMessage(mode, buf) ==
            Expect(MessageFault(mode, m), Sections(ReadHeader(buf), m.quests, m.answers, m.records), |buf|)
  {
  }

  lemma SectionsWellFormed(qs: seq<Entry>, rs: seq<Entry>, xs: seq<Entry>)
    requires NamesWellFormed(qs + rs + xs)
    ensures NamesWellFormed(qs) && NamesWellFormed(rs) && NamesWellFormed(xs)
  {
    var all := qs + rs + xs;
    assert forall i :: 0 <= i < |qs| ==> qs[i] == all[i];
    assert forall i :: 0 <= i < |rs| ==> rs[i] == all[|qs| + i];
    assert forall i :: 0 <= i < |xs| ==> xs[i] == all[|qs| + |rs| + i];
  }
}
