/** The compressed message against the one written without a table. */
module DnsCompression {
  import opened Bytes
  import opened DnsNames
  import opened DnsMessage
  import opened DnsEncode
  import opened DnsDecode
  import opened DnsTable
  import opened DnsRoundTrip

  /** Every label in place, and a zero byte. */
  function PutPlainName(buf: bytes, s: Name): bytes
    decreases |s|
  {
    if s == [] then buf + [0] else PutPlainName(buf + LabelBytes(Prefix(s)), Suffix(s))
  }

  function PutPlainEntry(buf: bytes, e: Entry): bytes {
    PutPlainName(buf, e.name) + e.tail
  }

  function PutPlainEntries(buf: bytes, es: seq<Entry>): bytes
    decreases |es|
  {
    if es == [] then buf else PutPlainEntries(PutPlainEntry(buf, es[0]), es[1..])
  }

  function Plain(m: Msg): bytes {
    PutPlainEntries(HeaderBytes(HeaderOf(m)), Entries(m))
  }

  /* ---- same meaning ---- */

  lemma {:induction false} PlainNameReads(buf: bytes, s: Name, limit: nat)
    requires WellFormed(s)
    ensures var more := PutPlainName(buf, s);
            && buf < more
            && Read(more, |buf|, limit) == Reading(Labels(s), 0)
            && WireEnd(more, |buf|) == |more|
    decreases |s|
  {
    if s != [] {
      var more := PutPlainName(buf, s);
      PlainNameReads(buf + LabelBytes(Prefix(s)), Suffix(s), limit);
      LabelSpelled(buf, Prefix(s), more, limit, Labels(Suffix(s)), 0);
    }
  }

  lemma PlainNameParses(mode: Mode, buf: bytes, s: Name, more: bytes)
    requires WellFormed(s) && PutPlainName(buf, s) <= more
    ensures ParseName(mode, more, |buf|) == Expect(NameFault(mode, 0, s), s, |PutPlainName(buf, s)|)
  {
    PlainNameReads(buf, s, |buf|);
    ReadingParses(mode, PutPlainName(buf, s), more, |buf|, Labels(s), 0);
    JoinLabels(s);
  }

  lemma {:induction false} PlainPrefix(buf: bytes, es: seq<Entry>)
    requires NamesWellFormed(es)
    ensures buf <= PutPlainEntries(buf, es)
    decreases |es|
  {
    if es != [] {
      PlainNameReads(buf, es[0].name, 0);
      PlainPrefix(PutPlainEntry(buf, es[0]), es[1..]);
    }
  }

  lemma {:induction false} PlainAppended(buf: bytes, a: seq<Entry>, b: seq<Entry>)
    ensures PutPlainEntries(buf, a + b) == PutPlainEntries(PutPlainEntries(buf, a), b)
    decreases |a|
  {
    if a == [] {
      assert a + b == b;
    } else {
      assert (a + b)[1..] == a[1..] + b;
      PlainAppended(PutPlainEntry(buf, a[0]), a[1..], b);
    }
  }

  lemma PlainEntryParses(mode: Mode, buf: bytes, es: seq<Entry>, more: bytes)
    requires es != [] && NamesWellFormed(es) && PutPlainEntries(buf, es) <= more
    ensures var name, next := PutPlainName(buf, es[0].name), PutPlainEntry(buf, es[0]);
            && ParseName(mode, more, |buf|) == Expect(NameFault(mode, 0, es[0].name), es[0].name, |name|)
            && |next| == |name| + |es[0].tail| <= |more|
            && more[|name|..|name| + |es[0].tail|] == es[0].tail
  {
    var name, next := PutPlainName(buf, es[0].name), PutPlainEntry(buf, es[0]);
    PlainPrefix(next, es[1..]);
    TailFollows(name, es[0].tail, more);
    PlainNameParses(mode, buf, es[0].name, more);
  }

  lemma PlainQuestParses(mode: Mode, buf: bytes, q: Quest, es: seq<Entry>, more: bytes)
    requires es != [] && NamesWellFormed(es) && PutPlainEntries(buf, es) <= more
    requires es[0] == Entry(q.name, QuestTail(q))
    ensures ParseQuest(mode, more, |buf|) == Expect(QuestFault(mode, 0, q.name), q, |PutPlainEntry(buf, es[0])|)
  {
    PlainEntryParses(mode, buf, es, more);
    if QuestFault(mode, 0, q.name).NoFault? {
      QuestFollows(mode, more, |buf|, |PutPlainName(buf, q.name)|, es[0].tail, q);
    }
  }

  lemma PlainRecordParses(mode: Mode, buf: bytes, r: Record, es: seq<Entry>, more: bytes)
    requires es != [] && NamesWellFormed(es) && PutPlainEntries(buf, es) <= more
    requires es[0].name == r.name && RecordFields(es[0].tail, r)
    ensures ParseRecord(mode, more, |buf|) == Expect(NameFault(mode, 0, r.name), r, |PutPlainEntry(buf, es[0])|)
  {
    PlainEntryParses(mode, buf, es, more);
    if NameFault(mode, 0, r.name).NoFault? {
      RecordFollows(mode, more, |buf|, |PutPlainName(buf, r.name)|, es[0].tail, r);
    }
  }

  // Without a table no name goes through a pointer.
  function PlainQuestsFault(mode: Mode, qs: seq<Quest>): Fault
    decreases |qs|
  {
    if qs == [] then NoFault
    else FirstFault(QuestFault(mode, 0, qs[0].name), PlainQuestsFault(mode, qs[1..]))
  }

  function PlainRecordsFault(mode: Mode, rs: seq<Record>): Fault
    decreases |rs|
  {
    if rs == [] then NoFault
    else FirstFault(NameFault(mode, 0, rs[0].name), PlainRecordsFault(mode, rs[1..]))
  }

  /** All that is left to go wrong without a table: a question without a name, and, to the RFC, a
      label that is too long. */
  function PlainFault(mode: Mode, m: Msg): Fault {
    FirstFault(PlainQuestsFault(mode, m.quests),
               FirstFault(PlainRecordsFault(mode, m.answers), PlainRecordsFault(mode, m.records)))
  }

  lemma {:induction false} PlainQuestsParse(mode: Mode, buf: bytes, qs: seq<Quest>, more: bytes)
    requires NamesWellFormed(QuestEntries(qs)) && PutPlainEntries(buf, QuestEntries(qs)) <= more
    ensures ParseQuests(mode, more, |buf|, |qs|) ==
            Expect(PlainQuestsFault(mode, qs), qs, |PutPlainEntries(buf, QuestEntries(qs))|)
    decreases |qs|
  {
    if qs != [] {
      var es := QuestEntries(qs);
      var next := PutPlainEntry(buf, es[0]);
      QuestEntriesRest(qs);
      PlainQuestParses(mode, buf, qs[0], es, more);
      PlainQuestsParse(mode, next, qs[1..], more);
      JoinQuests(mode, more, |buf|, qs, |next|, QuestFault(mode, 0, qs[0].name),
                 PlainQuestsFault(mode, qs[1..]), |PutPlainEntries(buf, es)|);
    }
  }

  lemma {:induction false} PlainRecordsParse(mode: Mode, buf: bytes, rs: seq<Record>, more: bytes)
    requires DataFits(rs)
    requires NamesWellFormed(RecordEntries(rs)) && PutPlainEntries(buf, RecordEntries(rs)) <= more
    ensures ParseRecords(mode, more, |buf|, |rs|) ==
            Expect(PlainRecordsFault(mode, rs), rs, |PutPlainEntries(buf, RecordEntries(rs))|)
    decreases |rs|
  {
    if rs != [] {
      var es := RecordEntries(rs);
      var next := PutPlainEntry(buf, es[0]);
      RecordTailFields(rs[0]);
      RecordEntriesRest(rs);
      PlainRecordParses(mode, buf, rs[0], es, more);
      PlainRecordsParse(mode, next, rs[1..], more);
      JoinRecords(mode, more, |buf|, rs, |next|, NameFault(mode, 0, rs[0].name),
                  PlainRecordsFault(mode, rs[1..]), |PutPlainEntries(buf, es)|);
    }
  }

  lemma PlainSectionsParse(mode: Mode, b0: bytes, m: Msg, buf: bytes)
    requires DataFits(m.answers) && DataFits(m.records) && NamesWellFormed(Entries(m))
    requires buf == PutPlainEntries(b0, Entries(m)) && |b0| == 12 <= |buf|
    requires ReadHeader(buf).quests == |m.quests|
    requires ReadHeader(buf).answers == |m.answers| && ReadHeader(buf).records == |m.records|
    ensures ParseMessage(mode, buf) ==
            Expect(PlainFault(mode, m), Sections(ReadHeader(buf), m.quests, m.answers, m.records), |buf|)
  {
    var qs, rs, xs := QuestEntries(m.quests), RecordEntries(m.answers), RecordEntries(m.records);
    SectionsWellFormed(qs, rs, xs);
    var b1 := PutPlainEntries(b0, qs);
    var b2 := PutPlainEntries(b1, rs);
    PlainAppended(b0, qs, rs);
    PlainAppended(b0, qs + rs, xs);
    PlainPrefix(b1, rs);
    PlainPrefix(b2, xs);
    PlainQuestsParse(mode, b0, m.quests, buf);
    PlainRecordsParse(mode, b1, m.answers, buf);
    PlainRecordsParse(mode, b2, m.records, buf);
  }

  /** A message written without the table is read back whole, unless a name is at fault. */
  lemma PlainRoundTrip(mode: Mode, m: Msg)
    requires |m.quests| < WORD16 && |m.answers| < WORD16 && |m.records| < WORD16
    requires DataFits(m.answers) && DataFits(m.records) && NamesWellFormed(Entries(m))
    ensures |Plain(m)| >= 12
    ensures ParseMessage(mode, Plain(m)) ==
            Expect(PlainFault(mode, m), Sections(ReadHeader(Plain(m)), m.quests, m.answers, m.records), |Plain(m)|)
  {
    PlainHeader(m);
    PlainSectionsParse(mode, HeaderBytes(HeaderOf(m)), m, Plain(m));
  }

  lemma PlainHeader(m: Msg)
    requires |m.quests| < WORD16 && |m.answers| < WORD16 && |m.records| < WORD16
    requires NamesWellFormed(Entries(m))
    ensures |Plain(m)| >= 12
    ensures ReadHeader(Plain(m)).quests == |m.quests|
    ensures ReadHeader(Plain(m)).answers == |m.answers| && ReadHeader(Plain(m)).records == |m.records|
  {
    CountFits(|m.quests|);
    CountFits(|m.answers|);
    CountFits(|m.records|);
    PlainPrefix(HeaderBytes(HeaderOf(m)), Entries(m));
    HeaderParses(HeaderOf(m), Plain(m));
  }

  lemma SameHeader(a: bytes, b: bytes)
    requires |a| >= 12 && |b| >= 12 && a[..12] == b[..12]
    ensures ReadHeader(a) == ReadHeader(b)
  {
    assert forall i :: 0 <= i < 12 ==> a[i] == a[..12][i] == b[..12][i] == b[i];
  }

  lemma StartAlike(m: Msg)
    requires Encodable(m)
    ensures |Encoded(m)| >= 12 && |Plain(m)| >= 12
    ensures ReadHeader(Encoded(m)) == ReadHeader(Plain(m))
  {
    var start := Start(m);
    StartsWithHeader(m);
    PlainPrefix(start.buf, Entries(m));
    assert Encoded(m)[..12] == start.buf == Plain(m)[..12];
    SameHeader(Encoded(m), Plain(m));
  }

  /** What a reader makes of a message, wherever it ends. */
  function Meaning(p: Parse<Sections>): Parse<Sections> {
    if p.Done? then Done(p.value, 0) else p
  }

  /** To a reader that follows any number of pointers, compressing a message changes nothing. */
  lemma SameMeaning(m: Msg)
    requires Encodable(m)
    ensures Meaning(ParseMessage(AnyHops, Encoded(m))) == Meaning(ParseMessage(AnyHops, Plain(m)))
    ensures ParseMessage(AnyHops, Encoded(m)).Done? <==> PlainFault(AnyHops, m) == NoFault
  {
    RoundTrip(AnyHops, m);
    PlainRoundTrip(AnyHops, m);
    StartAlike(m);
    ReferenceFault(m);
  }

  lemma ReferenceFault(m: Msg)
    ensures MessageFault(AnyHops, m) == PlainFault(AnyHops, m)
  {
    var t1 := LearnEntries(map[], QuestEntries(m.quests));
    ReferenceQuestFault(map[], m.quests);
    ReferenceRecordFault(t1, m.answers);
    ReferenceRecordFault(LearnEntries(t1, RecordEntries(m.answers)), m.records);
  }

  lemma {:induction false} ReferenceQuestFault(t: Chains, qs: seq<Quest>)
    ensures QuestsFault(AnyHops, t, qs) == PlainQuestsFault(AnyHops, qs)
    decreases |qs|
  {
    if qs != [] {
      ReferenceQuestFault(Learn(t, qs[0].name), qs[1..]);
    }
  }

  lemma {:induction false} ReferenceRecordFault(t: Chains, rs: seq<Record>)
    ensures RecordsFault(AnyHops, t, rs) == PlainRecordsFault(AnyHops, rs)
    decreases |rs|
  {
    if rs != [] {
      ReferenceRecordFault(Learn(t, rs[0].name), rs[1..]);
    }
  }

  /* ---- fewer bytes ---- */

  /** Writing the name ends in a pointer. */
  predicate Hits(g: Enc, s: Name)
    decreases |s|
  {
    s != [] && (s in g.table || Hits(PutLabel(g, s), Suffix(s)))
  }

  predicate AnyHits(g: Enc, es: seq<Entry>)
    decreases |es|
  {
    es != [] && (Hits(g, es[0].name) || AnyHits(PutEntry(g, es[0]), es[1..]))
  }

  lemma {:induction false} PlainNameLength(buf: bytes, s: Name)
    requires WellFormed(s)
    ensures |PutPlainName(buf, s)| >= |buf| + (if s == [] then 1 else 3)
    decreases |s|
  {
    if s != [] {
      PlainNameLength(buf + LabelBytes(Prefix(s)), Suffix(s));
    }
  }

  lemma {:induction false} NameNotLonger(g: Enc, s: Name, buf: bytes)
    requires WellFormed(s)
    ensures var saved := (|PutPlainName(buf, s)| - |buf|) - (|PutName(g, s).buf| - |g.buf|);
            if Hits(g, s) then saved > 0 else saved == 0
    decreases |s|
  {
    if s != [] {
      if s in g.table {
        PlainNameLength(buf, s);
      } else {
        NameNotLonger(PutLabel(g, s), Suffix(s), buf + LabelBytes(Prefix(s)));
      }
    }
  }

  lemma {:induction false} EntriesNotLonger(g: Enc, es: seq<Entry>, buf: bytes)
    requires NamesWellFormed(es)
    ensures var saved := (|PutPlainEntries(buf, es)| - |buf|) - (|PutEntries(g, es).buf| - |g.buf|);
            if AnyHits(g, es) then saved > 0 else saved == 0
    decreases |es|
  {
    if es != [] {
      NameNotLonger(g, es[0].name, buf);
      EntriesNotLonger(PutEntry(g, es[0]), es[1..], PutPlainEntry(buf, es[0]));
    }
  }

  /** Compression never costs a byte, and saves one exactly when a pointer is written. */
  lemma NotLonger(m: Msg)
    requires NamesWellFormed(Entries(m))
    ensures |Encoded(m)| <= |Plain(m)|
    ensures |Encoded(m)| < |Plain(m)| <==> AnyHits(Start(m), Entries(m))
  {
    EncodedFromStart(m);
    EntriesNotLonger(Start(m), Entries(m), Start(m).buf);
  }

  /* ---- a size that is always within reach ---- */

  lemma {:induction false} NameWithinReach(g: Enc, s: Name, buf: bytes)
    requires WellFormed(s)
    requires |g.buf| + |PutPlainName(buf, s)| - |buf| <= REACH
    ensures Fits(g, s, {}) && Far(g, s, {}) == {}
    decreases |s|
  {
    if s != [] && s !in g.table {
      PlainNameLength(buf, s);
      NameWithinReach(PutLabel(g, s), Suffix(s), buf + LabelBytes(Prefix(s)));
    }
  }

  lemma {:induction false} EntriesWithinReach(g: Enc, es: seq<Entry>, buf: bytes)
    requires NamesWellFormed(es)
    requires |g.buf| + |PutPlainEntries(buf, es)| - |buf| <= REACH
    ensures EntriesFit(g, es, {})
    decreases |es|
  {
    if es != [] {
      PlainPrefix(PutPlainEntry(buf, es[0]), es[1..]);
      NameWithinReach(g, es[0].name, buf);
      NameNotLonger(g, es[0].name, buf);
      EntriesWithinReach(PutEntry(g, es[0]), es[1..], PutPlainEntry(buf, es[0]));
    }
  }

  /** At most what entries take in plain form. */
  function Bulk(es: seq<Entry>): nat
    decreases |es|
  {
    if es == [] then 0 else |es[0].name| + 2 + |es[0].tail| + Bulk(es[1..])
  }

  lemma {:induction false} PlainNameAtMost(buf: bytes, s: Name)
    ensures |PutPlainName(buf, s)| <= |buf| + |s| + 2
    decreases |s|
  {
    if s != [] {
      PlainNameAtMost(buf + LabelBytes(Prefix(s)), Suffix(s));
    }
  }

  lemma {:induction false} PlainAtMost(buf: bytes, es: seq<Entry>)
    ensures |PutPlainEntries(buf, es)| <= |buf| + Bulk(es)
    decreases |es|
  {
    if es != [] {
      PlainNameAtMost(buf, es[0].name);
      PlainAtMost(PutPlainEntry(buf, es[0]), es[1..]);
    }
  }

  /** Any message whose plain form is at most 16 KiB has all its suffixes within a pointer's reach. */
  lemma SmallFits(m: Msg)
    requires NamesWellFormed(Entries(m))
    requires |Plain(m)| <= REACH
    ensures EntriesFit(Start(m), Entries(m), {})
  {
    EntriesWithinReach(Start(m), Entries(m), Start(m).buf);
  }

  /* ---- small messages ---- */

  predicate CompactName(s: Name, n: nat) {
    WellFormed(s) && |s| <= n
  }

  predicate CompactRecords(rs: seq<Record>, n: nat) {
    forall i :: 0 <= i < |rs| ==> CompactName(rs[i].name, n) && |rs[i].data| <= n
  }

  /** Well-formed names and data of at most n bytes. */
  predicate Compact(m: Msg, n: nat) {
    && (forall i :: 0 <= i < |m.quests| ==> CompactName(m.quests[i].name, n))
    && CompactRecords(m.answers, n) && CompactRecords(m.records, n)
  }

  predicate CompactEntries(es: seq<Entry>, n: nat) {
    forall i :: 0 <= i < |es| ==> CompactName(es[i].name, n) && |es[i].tail| <= n + 10
  }

  lemma {:induction false} BulkAtMost(es: seq<Entry>, n: nat)
    requires CompactEntries(es, n)
    ensures Bulk(es) <= (2 * n + 12) * |es|
    decreases |es|
  {
    if es != [] {
      BulkAtMost(es[1..], n);
      assert (2 * n + 12) * |es| == 2 * n + 12 + (2 * n + 12) * (|es| - 1);
    }
  }

  lemma RecordsCompact(rs: seq<Record>, n: nat)
    requires CompactRecords(rs, n) && n < WORD16
    ensures CompactEntries(RecordEntries(rs), n) && DataFits(rs)
  {
    forall i | 0 <= i < |rs|
      ensures |RecordTail(rs[i])| <= n + 10
    {
      RecordTailFields(rs[i]);
    }
  }

  lemma QuestsCompact(qs: seq<Quest>, n: nat)
    requires forall i :: 0 <= i < |qs| ==> CompactName(qs[i].name, n)
    ensures CompactEntries(QuestEntries(qs), n)
  {
  }

  lemma CompactBoth(a: seq<Entry>, b: seq<Entry>, n: nat)
    requires CompactEntries(a, n) && CompactEntries(b, n)
    ensures CompactEntries(a + b, n)
  {
  }

  lemma EntriesCompact(m: Msg, n: nat)
    requires Compact(m, n) && n < WORD16
    ensures CompactEntries(Entries(m), n) && DataFits(m.answers) && DataFits(m.records)
    ensures |Entries(m)| == |m.quests| + |m.answers| + |m.records|
  {
    var qs, rs, xs := QuestEntries(m.quests), RecordEntries(m.answers), RecordEntries(m.records);
    QuestsCompact(m.quests, n);
    RecordsCompact(m.answers, n);
    RecordsCompact(m.records, n);
    CompactBoth(qs, rs, n);
    CompactBoth(qs + rs, xs, n);
  }

  lemma FewEntries(n: nat, count: nat)
    requires (2 * n + 12) * count + 12 <= REACH
    ensures count < WORD16
  {
    assert (2 * n + 12) * count >= count;
  }

  /** A message of few and small entries is encodable. */
  lemma CompactEncodable(m: Msg, n: nat)
    requires Compact(m, n) && n < WORD16
    requires (2 * n + 12) * (|m.quests| + |m.answers| + |m.records|) + 12 <= REACH
    ensures Encodable(m)
  {
    EntriesCompact(m, n);
    FewEntries(n, |m.quests| + |m.answers| + |m.records|);
    BulkAtMost(Entries(m), n);
    PlainAtMost(HeaderBytes(HeaderOf(m)), Entries(m));
    WellFormedIfCompact(Entries(m), n);
    SmallFits(m);
  }

  lemma WellFormedIfCompact(es: seq<Entry>, n: nat)
    requires CompactEntries(es, n)
    ensures NamesWellFormed(es)
  {
  }
}
