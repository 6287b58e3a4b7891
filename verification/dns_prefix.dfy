/** What the decoder makes of the first part of a message, and of a message that follows other bytes. */
module DnsPrefix {
  import opened Bytes
  import opened DnsNames
  import opened DnsMessage
  import opened DnsEncode
  import opened DnsDecode
  import opened DnsBounds
  import opened DnsTable
  import opened DnsRoundTrip
  import opened DnsHeader
  import opened DnsLimits
  import E = DnsExact

  /* ---- a name or an entry that is cut ---- */

  /** The run of labels ends with the bytes. */
  predicate CutOff(r: Run) {
    r.Cut? || r.HalfPointer?
  }

  /** more is the beginning of what was written, from g on but not to its end. */
  predicate CutWithin(g: Enc, more: bytes, b: bytes) {
    g.buf <= more && more < b
  }

  lemma {:induction false} CutRuns(g: Enc, s: Name, more: bytes)
    requires WellFormed(s) && CutWithin(g, more, PutName(g, s).buf)
    ensures CutOff(RunAt(more, |g.buf|))
    decreases |s|
  {
    if s == [] {
    } else if s in g.table {
      CutPointer(g.buf, g.table[s], more);
    } else {
      var h := PutLabel(g, s);
      NameGrows(h, Suffix(s));
      if h.buf <= more {
        CutRuns(h, Suffix(s), more);
        E.LabelRuns(g.buf, Prefix(s), more);
      } else {
        CutLabel(g.buf, Prefix(s), more);
      }
    }
  }

  lemma CutPointer(buf: bytes, offset: u16, more: bytes)
    requires buf <= more && more < buf + PointerBytes(offset)
    ensures CutOff(RunAt(more, |buf|))
  {
    PointerLeads(buf, offset);
    if |more| > |buf| {
      assert more[|buf|] == (buf + PointerBytes(offset))[|buf|];
    }
  }

  lemma CutLabel(buf: bytes, text: bytes, more: bytes)
    requires 1 <= |text| <= MAX_LABEL
    requires buf <= more && more < buf + LabelBytes(text)
    ensures RunAt(more, |buf|) == Cut
  {
    if |more| > |buf| {
      assert more[|buf|] == (buf + LabelBytes(text))[|buf|];
    }
  }

  lemma CutName(g: Enc, s: Name, more: bytes)
    requires WellFormed(s) && CutWithin(g, more, PutName(g, s).buf)
    ensures ParseName(OneHop, more, |g.buf|) == Fail(NotEnoughData)
  {
    CutRuns(g, s, more);
    WalkIsTwoRuns(more, |g.buf|);
  }

  lemma Splits(a: bytes, tail: bytes, more: bytes)
    requires more <= a + tail
    ensures more < a || (a <= more && more[|a|..] <= tail)
  {
    if |more| >= |a| {
      assert more[..|a|] == (a + tail)[..|a|] == a;
      assert more[|a|..] == (a + tail)[|a|..|more|];
    } else {
      assert more == (a + tail)[..|more|] == a[..|more|];
    }
  }

  lemma CutQuest(g: Enc, q: Quest, tail: bytes, t: Chains, far: set<Name>, more: bytes)
    requires WellFormed(q.name) && Fits(g, q.name, far) && Sound(g, t, {}, far) && Depth(t, q.name) <= 1
    requires q.name != [] && |tail| == 4
    requires CutWithin(g, more, PutEntry(g, Entry(q.name, tail)).buf)
    ensures ParseQuest(OneHop, more, |g.buf|) == Fail(NotEnoughData)
  {
    var b := PutName(g, q.name).buf;
    Splits(b, tail, more);
    if more < b {
      CutName(g, q.name, more);
    } else {
      NameParses(OneHop, g, q.name, t, far, more);
    }
  }

  lemma CutRecord(g: Enc, r: Record, tail: bytes, t: Chains, far: set<Name>, more: bytes)
    requires WellFormed(r.name) && Fits(g, r.name, far) && Sound(g, t, {}, far) && Depth(t, r.name) <= 1
    requires RecordFields(tail, r)
    requires CutWithin(g, more, PutEntry(g, Entry(r.name, tail)).buf)
    ensures ParseRecord(OneHop, more, |g.buf|) == Fail(NotEnoughData)
  {
    var b := PutName(g, r.name).buf;
    Splits(b, tail, more);
    if more < b {
      CutName(g, r.name, more);
      RecordFails(OneHop, more, |g.buf|, NotEnoughData);
    } else {
      NameParses(OneHop, g, r.name, t, far, more);
      CutFields(more, |g.buf|, |b|, tail, r);
    }
  }

  lemma CutFields(more: bytes, pos: nat, p: nat, tail: bytes, r: Record)
    requires RecordFields(tail, r)
    requires p <= |more| < p + |tail| && more[p..] <= tail
    requires ParseName(OneHop, more, pos) == Done(r.name, p)
    ensures ParseRecord(OneHop, more, pos) == Fail(NotEnoughData)
  {
    if p + 10 <= |more| {
      assert more[p + 8..p + 10] == more[p..][8..10] == tail[8..10];
      ReadBe16(more, p + 8, |r.data|);
    }
  }

  lemma Comparable(a: bytes, b: bytes, c: bytes)
    requires a <= c && b <= c
    ensures a < b || b <= a
  {
    if |a| < |b| {
      assert a == c[..|a|] == b[..|a|];
    } else {
      assert b == c[..|b|] == a[..|b|];
    }
  }

  /* ---- sections and messages ---- */

  /** The first question is named and can be read, and what is asked of all holds of the others. */
  lemma FirstQuest(g: Enc, qs: seq<Quest>, t: Chains, far: set<Name>)
    requires qs != [] && QuestsFault(OneHop, t, qs) == NoFault
    requires NamesWellFormed(QuestEntries(qs)) && EntriesFit(g, QuestEntries(qs), far)
    ensures QuestFault(OneHop, Depth(t, qs[0].name), qs[0].name) == NoFault
    ensures QuestsFault(OneHop, Learn(t, qs[0].name), qs[1..]) == NoFault
    ensures WellFormed(qs[0].name) && Fits(g, qs[0].name, far)
  {
    assert QuestEntries(qs)[0].name == qs[0].name;
  }

  /** The first question is cut, or the others are. */
  lemma CutQuestStep(g: Enc, g1: Enc, qs: seq<Quest>, tail: bytes, t: Chains, far: set<Name>, more: bytes)
    requires qs != [] && tail == QuestTail(qs[0]) && g1 == PutEntry(g, Entry(qs[0].name, tail))
    requires WellFormed(qs[0].name) && Fits(g, qs[0].name, far) && Sound(g, t, {}, far)
    requires QuestFault(OneHop, Depth(t, qs[0].name), qs[0].name) == NoFault
    requires g.buf <= more
    requires more < g1.buf || (g1.buf <= more && ParseQuests(OneHop, more, |g1.buf|, |qs| - 1) == Fail(NotEnoughData))
    ensures ParseQuests(OneHop, more, |g.buf|, |qs|) == Fail(NotEnoughData)
  {
    if more < g1.buf {
      CutQuest(g, qs[0], tail, t, far, more);
      FailsNow(more, |g.buf|, |qs|);
    } else {
      QuestParses(OneHop, g, qs[0], t, far, more);
      FailsLater(more, |g.buf|, qs, |g1.buf|);
    }
  }

  lemma {:induction false} CutQuests(g: Enc, qs: seq<Quest>, es: seq<Entry>, t: Chains, far: set<Name>,
                                     more: bytes, whole: bytes)
    requires es == QuestEntries(qs) && whole == PutEntries(g, es).buf
    requires NamesWellFormed(es) && EntriesFit(g, es, far) && Sound(g, t, {}, far)
    requires QuestsFault(OneHop, t, qs) == NoFault
    requires CutWithin(g, more, whole)
    ensures ParseQuests(OneHop, more, |g.buf|, |qs|) == Fail(NotEnoughData)
    decreases |es|
  {
    var g1 := PutEntry(g, es[0]);
    QuestEntriesRest(qs);
    FirstQuest(g, qs, t, far);
    FirstEntry(g, es, t, far);
    Comparable(more, g1.buf, whole);
    if g1.buf <= more {
      CutQuests(g1, qs[1..], es[1..], Learn(t, es[0].name), Far(g, es[0].name, far), more, whole);
    }
    CutQuestStep(g, g1, qs, es[0].tail, t, far, more);
  }

  lemma FailsNow(buf: bytes, pos: nat, n: nat)
    requires n > 0 && ParseQuest(OneHop, buf, pos) == Fail(NotEnoughData)
    ensures ParseQuests(OneHop, buf, pos, n) == Fail(NotEnoughData)
  {
  }

  lemma FailsLater(buf: bytes, pos: nat, qs: seq<Quest>, next: nat)
    requires qs != [] && ParseQuest(OneHop, buf, pos) == Done(qs[0], next)
    requires ParseQuests(OneHop, buf, next, |qs| - 1) == Fail(NotEnoughData)
    ensures ParseQuests(OneHop, buf, pos, |qs|) == Fail(NotEnoughData)
  {
    ConsQuest(OneHop, buf, pos, qs, next);
  }

  lemma {:induction false} CutRecords(g: Enc, rs: seq<Record>, t: Chains, far: set<Name>, more: bytes)
    requires DataFits(rs)
    requires NamesWellFormed(RecordEntries(rs)) && EntriesFit(g, RecordEntries(rs), far) && Sound(g, t, {}, far)
    requires Shallow(t, RecordEntries(rs))
    requires CutWithin(g, more, PutEntries(g, RecordEntries(rs)).buf)
    ensures ParseRecords(OneHop, more, |g.buf|, |rs|) == Fail(NotEnoughData)
    decreases |rs|
  {
    var es := RecordEntries(rs);
    var g1 := PutEntry(g, es[0]);
    RecordEntriesRest(rs);
    RecordTailFields(rs[0]);
    FirstEntry(g, es, t, far);
    Comparable(more, g1.buf, PutEntries(g, es).buf);
    if more < g1.buf {
      CutRecord(g, rs[0], es[0].tail, t, far, more);
    } else {
      RecordParses(OneHop, g, rs[0], es[0].tail, t, far, more);
      CutRecords(g1, rs[1..], Learn(t, rs[0].name), Far(g, rs[0].name, far), more);
      ConsRecord(OneHop, more, |g.buf|, rs, |g1.buf|);
    }
  }

  /** The beginning of a message that comes back is refused: for want of a header, or of data. */
  lemma PrefixRefused(m: Msg, k: nat)
    requires Encodable(m) && AllNamed(m.quests) && Shallow(map[], Entries(m))
    requires k < |Encoded(m)|
    ensures ParseMessage(OneHop, Encoded(m)[..k]) == Fail(if k < 12 then NoHeader else NotEnoughData)
  {
    if k >= 12 {
      var more := Encoded(m)[..k];
      PrefixHeader(m, more);
      EncodedFromStart(m);
      StartSound(Start(m));
      CutSections(m, more);
    }
  }

  lemma PrefixHeader(m: Msg, more: bytes)
    requires |m.quests| < WORD16 && |m.answers| < WORD16 && |m.records| < WORD16
    requires |more| >= 12 && more <= Encoded(m)
    ensures Start(m).buf <= more
    ensures var h := ReadHeader(more); h.quests == |m.quests| && h.answers == |m.answers| && h.records == |m.records|
  {
    StartsWithHeader(m);
    Comparable(more, HeaderBytes(HeaderOf(m)), Encoded(m));
    HeaderParses(HeaderOf(m), more);
    CountFits(|m.quests|);
    CountFits(|m.answers|);
    CountFits(|m.records|);
  }

  lemma CutSections(m: Msg, more: bytes)
    requires DataFits(m.answers) && DataFits(m.records) && NamesWellFormed(Entries(m))
    requires Sound(Start(m), map[], {}, {}) && EntriesFit(Start(m), Entries(m), {})
    requires AllNamed(m.quests) && Shallow(map[], Entries(m))
    requires CutWithin(Start(m), more, PutEntries(Start(m), Entries(m)).buf)
    requires var h := ReadHeader(more); h.quests == |m.quests| && h.answers == |m.answers| && h.records == |m.records|
    ensures ParseMessage(OneHop, more) == Fail(NotEnoughData)
  {
    var g0 := Start(m);
    var g1, g2 := Stages(m, g0);
    var qs, rs, xs := QuestEntries(m.quests), RecordEntries(m.answers), RecordEntries(m.records);
    var t1 := LearnEntries(map[], qs);
    var far1 := FarAfter(g0, qs, {});
    ShallowAppended(map[], qs, rs);
    ShallowAppended(map[], qs + rs, xs);
    LearnAppended(map[], qs, rs);
    Comparable(more, g1.buf, PutEntries(g0, Entries(m)).buf);
    Comparable(more, g2.buf, PutEntries(g0, Entries(m)).buf);
    if more < g1.buf {
      QuestsShallow(map[], m.quests);
      CutQuests(g0, m.quests, qs, map[], {}, more, g1.buf);
    } else {
      QuestsRead(g0, m.quests, map[], {}, more);
      if more < g2.buf {
        CutRecords(g1, m.answers, t1, far1, more);
      } else {
        RecordsRead(g1, m.answers, t1, far1, more);
        CutRecords(g2, m.records, LearnEntries(t1, rs), FarAfter(g1, rs, far1), more);
      }
    }
  }

  lemma QuestsRead(g: Enc, qs: seq<Quest>, t: Chains, far: set<Name>, more: bytes)
    requires NamesWellFormed(QuestEntries(qs)) && EntriesFit(g, QuestEntries(qs), far) && Sound(g, t, {}, far)
    requires AllNamed(qs) && Shallow(t, QuestEntries(qs))
    requires PutEntries(g, QuestEntries(qs)).buf <= more
    ensures ParseQuests(OneHop, more, |g.buf|, |qs|) == Done(qs, |PutEntries(g, QuestEntries(qs)).buf|)
  {
    QuestsParse(OneHop, g, qs, t, far, more);
    QuestsShallow(t, qs);
  }

  lemma RecordsRead(g: Enc, rs: seq<Record>, t: Chains, far: set<Name>, more: bytes)
    requires DataFits(rs)
    requires NamesWellFormed(RecordEntries(rs)) && EntriesFit(g, RecordEntries(rs), far) && Sound(g, t, {}, far)
    requires Shallow(t, RecordEntries(rs))
    requires PutEntries(g, RecordEntries(rs)).buf <= more
    ensures ParseRecords(OneHop, more, |g.buf|, |rs|) == Done(rs, |PutEntries(g, RecordEntries(rs)).buf|)
  {
    RecordsParse(OneHop, g, rs, t, far, more);
    RecordsShallow(t, rs);
  }

  /* ---- authority records ---- */

  /** The three sections, each from where the one before it ends. */
  predicate SectionsAt(buf: bytes, p1: nat, p2: nat, d: Sections, end: nat)
    requires |buf| >= 12
  {
    && ParseQuests(OneHop, buf, 12, GetBe16(buf, 4)) == Done(d.quests, p1)
    && ParseRecords(OneHop, buf, p1, GetBe16(buf, 6)) == Done(d.answers, p2)
    && ParseRecords(OneHop, buf, p2, GetBe16(buf, 10)) == Done(d.records, end)
  }

  /** Whatever the header counts as authority records, the additional records are read from where
      the answers end. */
  lemma ServersIgnored(buf: bytes, d: Sections, end: nat)
    requires |buf| >= 12 && d.header == ReadHeader(buf)
    ensures ParseMessage(OneHop, buf) == Done(d, end) <==> exists p1, p2 :: SectionsAt(buf, p1, p2, d, end)
  {
    if ParseMessage(OneHop, buf) == Done(d, end) {
      var p1 := ParseQuests(OneHop, buf, 12, GetBe16(buf, 4)).next;
      var p2 := ParseRecords(OneHop, buf, p1, GetBe16(buf, 6)).next;
      assert SectionsAt(buf, p1, p2, d, end);
    }
  }

  /* ---- after other bytes ---- */

  /** A message appended to a buffer leaves it alone, and its header and sections can be read in
      place, offsets counted from the start of the buffer. */
  lemma AppendedReads(mode: Mode, m: Msg, buf: bytes)
    requires DataFits(m.answers) && DataFits(m.records) && NamesWellFormed(Entries(m))
    requires EntriesFit(Enc(buf + HeaderBytes(HeaderOf(m)), map[]), Entries(m), {})
    ensures var out, start := PutMessage(m, buf).buf, buf + HeaderBytes(HeaderOf(m));
            start <= out && exists p1, p2 :: AllParse(mode, m, out, |start|, p1, p2)
  {
    var g0 := Enc(buf + HeaderBytes(HeaderOf(m)), map[]);
    StartSound(g0);
    EntriesParse(mode, g0, m, PutMessage(m, buf).buf);
  }
}
