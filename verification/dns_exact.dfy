/** The round trip without any condition on where suffixes are stored: exactly which messages come
    back whole. */
module DnsExact {
  import opened Bytes
  import opened DnsNames
  import opened DnsMessage
  import opened DnsEncode
  import opened DnsDecode
  import opened DnsBounds
  import opened DnsTable
  import opened DnsRoundTrip
  import opened DnsHeader
  import opened DnsLimits

  /* ---- names ---- */

  /** The suffix a name's pointer stands for, or nothing when it is spelled to its end. */
  function Stop(g: Enc, s: Name): (k: Name)
    decreases |s|
    ensures |k| <= |s| && (k == [] || k in g.table)
  {
    if s == [] || s in g.table then s else Stop(PutLabel(g, s), Suffix(s))
  }

  /** The labels before that. */
  function Head(g: Enc, s: Name): seq<bytes>
    decreases |s|
  {
    if s == [] || s in g.table then [] else [Prefix(s)] + Head(PutLabel(g, s), Suffix(s))
  }

  /** The bytes at an offset spell a text, in place. */
  predicate Lands(buf: bytes, at: nat, k: Name) {
    var r := RunAt(buf, at);
    r.Whole? && Join(r.labels) == k
  }

  /** A name comes back: its pointer is out of reach and yet leads to a spelling of the suffix, or it
      goes through one pointer at most. */
  predicate NameOk(g: Enc, s: Name, t: Chains, far: set<Name>, buf: bytes) {
    var k := Stop(g, s);
    if k != [] && k in far then Lands(buf, g.table[k] % REACH, k) else Depth(t, s) <= 1
  }

  lemma {:induction false} FitsIffNear(g: Enc, s: Name, far: set<Name>)
    ensures Fits(g, s, far) <==> Stop(g, s) == [] || Stop(g, s) !in far
    decreases |s|
  {
    if s != [] && s !in g.table {
      FitsIffNear(PutLabel(g, s), Suffix(s), FarWith(g, s, far));
    }
  }

  /** Where a name ends in a pointer, its labels in place end in one that leads to the low 14 bits of
      what the table has for the rest. */
  lemma {:induction false} NameRuns(g: Enc, s: Name, more: bytes)
    requires WellFormed(s) && PutName(g, s).buf <= more && Stop(g, s) != []
    ensures RunAt(more, |g.buf|) == Pointed(Head(g, s), g.table[Stop(g, s)] % REACH, |PutName(g, s).buf|)
    decreases |s|
  {
    if s in g.table {
      PointerRuns(g.buf, g.table[s], more);
    } else {
      var h := PutLabel(g, s);
      NameGrows(h, Suffix(s));
      NameRuns(h, Suffix(s), more);
      LabelRuns(g.buf, Prefix(s), more);
    }
  }

  lemma PointerRuns(buf: bytes, offset: u16, more: bytes)
    requires buf + PointerBytes(offset) <= more
    ensures RunAt(more, |buf|) == Pointed([], offset % REACH, |buf| + 2)
  {
    var b := buf + PointerBytes(offset);
    PointerLeads(buf, offset);
    assert more[|buf|] == b[|buf|] && more[|buf| + 1] == b[|buf| + 1];
  }

  lemma LabelRuns(buf: bytes, text: bytes, more: bytes)
    requires 1 <= |text| <= MAX_LABEL && buf + LabelBytes(text) <= more
    ensures RunAt(more, |buf|) == RunAt(more, |buf + LabelBytes(text)|).After(text)
  {
    LabelFound(buf, text, more);
  }

  /** Joined to the labels before it, only the suffix itself gives the name. */
  lemma {:induction false} JoinIff(g: Enc, s: Name, rest: seq<bytes>)
    requires WellFormed(s) && Stop(g, s) != []
    ensures Join(Head(g, s) + rest) == s <==> Join(rest) == Stop(g, s)
    decreases |s|
  {
    if s in g.table {
      assert [] + rest == rest;
    } else {
      var h, text, tail := PutLabel(g, s), Prefix(s), Head(PutLabel(g, s), Suffix(s));
      JoinIff(h, Suffix(s), rest);
      assert Head(g, s) + rest == [text] + (tail + rest);
      CutAtDot(s);
      if tail + rest == [] {
        assert rest == [];
      } else {
        JoinCons(text, tail + rest);
        SameAfter(text + [DOT], Join(tail + rest), Suffix(s));
      }
    }
  }

  lemma SameAfter(a: bytes, b: bytes, c: bytes)
    ensures a + b == a + c <==> b == c
  {
    assert (a + b)[|a|..] == b && (a + c)[|a|..] == c;
  }

  /** The parse is this value, or another with the same end. */
  predicate Gives<T(==)>(p: Parse<T>, value: T, next: nat, ok: bool) {
    && (p.Done? ==> p.next == next)
    && (p.Done? && p.value == value <==> ok)
  }

  lemma FarNameParses(g: Enc, s: Name, more: bytes)
    requires WellFormed(s) && PutName(g, s).buf <= more && Stop(g, s) != []
    ensures Gives(ParseName(OneHop, more, |g.buf|), s, |PutName(g, s).buf|,
                  Lands(more, g.table[Stop(g, s)] % REACH, Stop(g, s)))
  {
    var second := RunAt(more, g.table[Stop(g, s)] % REACH);
    NameRuns(g, s, more);
    WalkIsTwoRuns(more, |g.buf|);
    if second.Whole? {
      JoinIff(g, s, second.labels);
    }
  }

  lemma NameExact(g: Enc, s: Name, t: Chains, far: set<Name>, more: bytes)
    requires WellFormed(s) && Sound(g, t, {}, far) && PutName(g, s).buf <= more
    ensures Gives(ParseName(OneHop, more, |g.buf|), s, |PutName(g, s).buf|, NameOk(g, s, t, far, more))
  {
    FitsIffNear(g, s, far);
    if Stop(g, s) != [] && Stop(g, s) in far {
      FarNameParses(g, s, more);
    } else {
      NameParses(OneHop, g, s, t, far, more);
    }
  }

  /* ---- entries ---- */

  predicate EntriesOk(g: Enc, es: seq<Entry>, t: Chains, far: set<Name>, buf: bytes)
    decreases |es|
  {
    es == [] ||
    (NameOk(g, es[0].name, t, far, buf) &&
     EntriesOk(PutEntry(g, es[0]), es[1..], Learn(t, es[0].name), Far(g, es[0].name, far), buf))
  }

  lemma {:induction false} OkAppended(g: Enc, a: seq<Entry>, b: seq<Entry>, t: Chains, far: set<Name>, buf: bytes)
    ensures EntriesOk(g, a + b, t, far, buf) <==>
            EntriesOk(g, a, t, far, buf) && EntriesOk(PutEntries(g, a), b, LearnEntries(t, a), FarAfter(g, a, far), buf)
    decreases |a|
  {
    if a == [] {
      assert a + b == b;
    } else {
      assert (a + b)[1..] == a[1..] + b;
      OkAppended(PutEntry(g, a[0]), a[1..], b, Learn(t, a[0].name), Far(g, a[0].name, far), buf);
    }
  }

  /** Where no pointer is out of reach, that is being shallow. */
  lemma {:induction false} OkIsShallow(g: Enc, es: seq<Entry>, t: Chains, far: set<Name>, buf: bytes)
    requires EntriesFit(g, es, far)
    ensures EntriesOk(g, es, t, far, buf) <==> Shallow(t, es)
    decreases |es|
  {
    if es != [] {
      FitsIffNear(g, es[0].name, far);
      OkIsShallow(PutEntry(g, es[0]), es[1..], Learn(t, es[0].name), Far(g, es[0].name, far), buf);
    }
  }

  lemma QuestExact(g: Enc, q: Quest, tail: bytes, t: Chains, far: set<Name>, more: bytes)
    requires tail == QuestTail(q)
    requires WellFormed(q.name) && Sound(g, t, {}, far) && PutEntry(g, Entry(q.name, tail)).buf <= more
    ensures Gives(ParseQuest(OneHop, more, |g.buf|), q, |PutEntry(g, Entry(q.name, tail)).buf|,
                  q.name != [] && NameOk(g, q.name, t, far, more))
  {
    var b := PutName(g, q.name).buf;
    TailFollows(b, tail, more);
    NameExact(g, q.name, t, far, more);
    if NameOk(g, q.name, t, far, more) && q.name != [] {
      QuestFollows(OneHop, more, |g.buf|, |b|, tail, q);
    }
  }

  lemma RecordExact(g: Enc, r: Record, tail: bytes, t: Chains, far: set<Name>, more: bytes)
    requires RecordFields(tail, r)
    requires WellFormed(r.name) && Sound(g, t, {}, far) && PutEntry(g, Entry(r.name, tail)).buf <= more
    ensures Gives(ParseRecord(OneHop, more, |g.buf|), r, |PutEntry(g, Entry(r.name, tail)).buf|,
                  NameOk(g, r.name, t, far, more))
  {
    var b := PutName(g, r.name).buf;
    var p := ParseName(OneHop, more, |g.buf|);
    TailFollows(b, tail, more);
    NameExact(g, r.name, t, far, more);
    if p.Fail? {
      RecordFails(OneHop, more, |g.buf|, p.error);
    } else {
      RecordFollows(OneHop, more, |g.buf|, |b|, tail, r.(name := p.value));
    }
  }

  lemma FirstQuestExact(g: Enc, qs: seq<Quest>, t: Chains, far: set<Name>, more: bytes)
    requires qs != []
    requires NamesWellFormed(QuestEntries(qs)) && FarLate(g, far) && Sound(g, t, {}, far)
    requires PutEntries(g, QuestEntries(qs)).buf <= more
    ensures var e := QuestEntries(qs)[0];
            var g1, far1 := PutEntry(g, e), Far(g, e.name, far);
            && FarLate(g1, far1) && Sound(g1, Learn(t, e.name), {}, far1)
            && Gives(ParseQuest(OneHop, more, |g.buf|), qs[0], |g1.buf|,
                     qs[0].name != [] && NameOk(g, qs[0].name, t, far, more))
  {
    var es := QuestEntries(qs);
    EntriesGrow(PutEntry(g, es[0]), es[1..]);
    AnyEntrySound(g, es[0], t, far);
    QuestExact(g, qs[0], es[0].tail, t, far, more);
  }

  lemma {:induction false} QuestsExact(g: Enc, qs: seq<Quest>, t: Chains, far: set<Name>, more: bytes)
    requires NamesWellFormed(QuestEntries(qs)) && FarLate(g, far) && Sound(g, t, {}, far)
    requires PutEntries(g, QuestEntries(qs)).buf <= more
    ensures Gives(ParseQuests(OneHop, more, |g.buf|, |qs|), qs, |PutEntries(g, QuestEntries(qs)).buf|,
                  AllNamed(qs) && EntriesOk(g, QuestEntries(qs), t, far, more))
    decreases |qs|
  {
    if qs != [] {
      var es := QuestEntries(qs);
      var g1, t1, far1 := PutEntry(g, es[0]), Learn(t, es[0].name), Far(g, es[0].name, far);
      QuestEntriesRest(qs);
      AllNamedRest(qs);
      FirstQuestExact(g, qs, t, far, more);
      QuestsExact(g1, qs[1..], t1, far1, more);
      QuestsUnfold(more, |g.buf|, |qs|, |g1.buf|);
      GivesMore(ParseQuest(OneHop, more, |g.buf|), ParseQuests(OneHop, more, |g1.buf|, |qs| - 1), qs,
                |g1.buf|, |PutEntries(g, es).buf|, qs[0].name != [] && NameOk(g, qs[0].name, t, far, more),
                AllNamed(qs[1..]) && EntriesOk(g1, es[1..], t1, far1, more));
    }
  }

  lemma FirstRecordExact(g: Enc, rs: seq<Record>, t: Chains, far: set<Name>, more: bytes)
    requires rs != [] && DataFits(rs)
    requires NamesWellFormed(RecordEntries(rs)) && FarLate(g, far) && Sound(g, t, {}, far)
    requires PutEntries(g, RecordEntries(rs)).buf <= more
    ensures var e := RecordEntries(rs)[0];
            var g1, far1 := PutEntry(g, e), Far(g, e.name, far);
            && FarLate(g1, far1) && Sound(g1, Learn(t, e.name), {}, far1)
            && Gives(ParseRecord(OneHop, more, |g.buf|), rs[0], |g1.buf|, NameOk(g, rs[0].name, t, far, more))
  {
    var es := RecordEntries(rs);
    RecordTailFields(rs[0]);
    EntriesGrow(PutEntry(g, es[0]), es[1..]);
    AnyEntrySound(g, es[0], t, far);
    RecordExact(g, rs[0], es[0].tail, t, far, more);
  }

  lemma {:induction false} RecordsExact(g: Enc, rs: seq<Record>, t: Chains, far: set<Name>, more: bytes)
    requires DataFits(rs)
    requires NamesWellFormed(RecordEntries(rs)) && FarLate(g, far) && Sound(g, t, {}, far)
    requires PutEntries(g, RecordEntries(rs)).buf <= more
    ensures Gives(ParseRecords(OneHop, more, |g.buf|, |rs|), rs, |PutEntries(g, RecordEntries(rs)).buf|,
                  EntriesOk(g, RecordEntries(rs), t, far, more))
    decreases |rs|
  {
    if rs != [] {
      var es := RecordEntries(rs);
      var g1, t1, far1 := PutEntry(g, es[0]), Learn(t, es[0].name), Far(g, es[0].name, far);
      RecordEntriesRest(rs);
      FirstRecordExact(g, rs, t, far, more);
      RecordsExact(g1, rs[1..], t1, far1, more);
      RecordsUnfold(more, |g.buf|, |rs|, |g1.buf|);
      GivesMore(ParseRecord(OneHop, more, |g.buf|), ParseRecords(OneHop, more, |g1.buf|, |rs| - 1), rs,
                |g1.buf|, |PutEntries(g, es).buf|, NameOk(g, rs[0].name, t, far, more),
                EntriesOk(g1, es[1..], t1, far1, more));
    }
  }

  lemma QuestsUnfold(buf: bytes, pos: nat, n: nat, next: nat)
    requires n > 0
    requires var first := ParseQuest(OneHop, buf, pos); first.Done? ==> first.next == next
    ensures var first, rest := ParseQuest(OneHop, buf, pos), ParseQuests(OneHop, buf, next, n - 1);
            ParseQuests(OneHop, buf, pos, n) == if first.Fail? then Fail(first.error) else Before([first.value], rest)
  {
  }

  lemma RecordsUnfold(buf: bytes, pos: nat, n: nat, next: nat)
    requires n > 0
    requires var first := ParseRecord(OneHop, buf, pos); first.Done? ==> first.next == next
    ensures var first, rest := ParseRecord(OneHop, buf, pos), ParseRecords(OneHop, buf, next, n - 1);
            ParseRecords(OneHop, buf, pos, n) == if first.Fail? then Fail(first.error) else Before([first.value], rest)
  {
  }

  /** One item and those after it. */
  lemma GivesMore<T>(first: Parse<T>, rest: Parse<seq<T>>, items: seq<T>, next: nat, end: nat, ok: bool, restOk: bool)
    requires items != []
    requires Gives(first, items[0], next, ok) && Gives(rest, items[1..], end, restOk)
    ensures Gives(if first.Fail? then Fail(first.error) else Before([first.value], rest), items, end, ok && restOk)
  {
    if first.Done? && rest.Done? {
      var all := [first.value] + rest.value;
      assert all == items <==> first.value == items[0] && rest.value == items[1..] by {
        assert all[0] == first.value && all[1..] == rest.value;
        assert items == [items[0]] + items[1..];
      }
    }
  }

  /* ---- messages ---- */

  /** What a caller must grant: counts and lengths that fit their fields, and well-formed names. */
  predicate Writable(m: Msg) {
    && |m.quests| < WORD16 && |m.answers| < WORD16 && |m.records| < WORD16
    && DataFits(m.answers) && DataFits(m.records)
    && NamesWellFormed(Entries(m))
  }

  /** Every name of the message comes back. */
  predicate NamesOk(m: Msg) {
    EntriesOk(Start(m), Entries(m), map[], {}, Encoded(m))
  }

  /** The sections, one after another. */
  ghost predicate SectionsGive(m: Msg, buf: bytes, p1: nat, p2: nat, ok1: bool, ok2: bool, ok3: bool) {
    && Gives(ParseQuests(OneHop, buf, 12, |m.quests|), m.quests, p1, ok1)
    && Gives(ParseRecords(OneHop, buf, p1, |m.answers|), m.answers, p2, ok2)
    && Gives(ParseRecords(OneHop, buf, p2, |m.records|), m.records, |buf|, ok3)
  }

  lemma EachSection(m: Msg) returns (p1: nat, p2: nat, ok1: bool, ok2: bool, ok3: bool)
    requires Writable(m)
    ensures SectionsGive(m, Encoded(m), p1, p2, ok1, ok2, ok3)
    ensures ok1 && ok2 && ok3 <==> AllNamed(m.quests) && NamesOk(m)
  {
    var g0, buf := Start(m), Encoded(m);
    var qs, rs, xs := QuestEntries(m.quests), RecordEntries(m.answers), RecordEntries(m.records);
    var g1 := PutEntries(g0, qs);
    var g2 := PutEntries(g1, rs);
    var t1, far1 := LearnEntries(map[], qs), FarAfter(g0, qs, {});
    var t2, far2 := LearnEntries(t1, rs), FarAfter(g1, rs, far1);
    EncodedFromStart(m);
    StartSound(g0);
    SectionsWellFormed(qs, rs, xs);
    InSections(g0, qs, rs, xs);
    PutEntriesSound(g0, qs, map[], {});
    PutEntriesSound(g1, rs, t1, far1);
    QuestsExact(g0, m.quests, map[], {}, buf);
    RecordsExact(g1, m.answers, t1, far1, buf);
    RecordsExact(g2, m.records, t2, far2, buf);
    p1, p2 := |g1.buf|, |g2.buf|;
    ok1 := AllNamed(m.quests) && EntriesOk(g0, qs, map[], {}, buf);
    ok2, ok3 := EntriesOk(g1, rs, t1, far1, buf), EntriesOk(g2, xs, t2, far2, buf);
    OkInSections(g0, qs, rs, xs, buf);
  }

  lemma InSections(g: Enc, qs: seq<Entry>, rs: seq<Entry>, xs: seq<Entry>)
    ensures var g1 := PutEntries(g, qs);
            var g2 := PutEntries(g1, rs);
            && PutEntries(g, qs + rs + xs) == PutEntries(g2, xs)
            && g1.buf <= g2.buf <= PutEntries(g2, xs).buf
  {
    PutAppended(g, qs, rs);
    PutAppended(g, qs + rs, xs);
    EntriesGrow(PutEntries(g, qs), rs);
    EntriesGrow(PutEntries(PutEntries(g, qs), rs), xs);
  }

  lemma OkInSections(g: Enc, qs: seq<Entry>, rs: seq<Entry>, xs: seq<Entry>, buf: bytes)
    ensures var g1, t1, far1 := PutEntries(g, qs), LearnEntries(map[], qs), FarAfter(g, qs, {});
            EntriesOk(g, qs + rs + xs, map[], {}, buf) <==>
            && EntriesOk(g, qs, map[], {}, buf)
            && EntriesOk(g1, rs, t1, far1, buf)
            && EntriesOk(PutEntries(g1, rs), xs, LearnEntries(t1, rs), FarAfter(g1, rs, far1), buf)
  {
    OkAppended(g, qs, rs, map[], {}, buf);
    OkAppended(g, qs + rs, xs, map[], {}, buf);
    PutAppended(g, qs, rs);
    LearnAppended(map[], qs, rs);
    FitsAppended(g, qs, rs, {});
  }

  lemma SectionsExact(m: Msg, buf: bytes, p1: nat, p2: nat, ok1: bool, ok2: bool, ok3: bool)
    requires |buf| >= 12
    requires ReadHeader(buf).quests == |m.quests|
    requires ReadHeader(buf).answers == |m.answers| && ReadHeader(buf).records == |m.records|
    requires SectionsGive(m, buf, p1, p2, ok1, ok2, ok3)
    ensures Gives(ParseMessage(OneHop, buf), Sections(ReadHeader(buf), m.quests, m.answers, m.records), |buf|,
                  ok1 && ok2 && ok3)
  {
  }

  /** A message of any size comes back whole exactly when its questions are named and every name
      comes back; whatever is read ends at the last byte. */
  lemma DecodesExactly(m: Msg)
    requires Writable(m)
    ensures |Encoded(m)| >= 12
    ensures Gives(ParseMessage(OneHop, Encoded(m)),
                  Sections(ReadHeader(Encoded(m)), m.quests, m.answers, m.records), |Encoded(m)|,
                  AllNamed(m.quests) && NamesOk(m))
  {
    HeaderSurvives(m);
    CountFits(|m.quests|);
    CountFits(|m.answers|);
    CountFits(|m.records|);
    var p1, p2, ok1, ok2, ok3 := EachSection(m);
    SectionsExact(m, Encoded(m), p1, p2, ok1, ok2, ok3);
  }

  /** A message is decoded to just what it was exactly when it is a standard query or response,
      without a response code or additional records, its questions are named, and every name comes
      back. */
  lemma StoredExactly(m: Msg)
    requires Writable(m)
    ensures |Encoded(m)| >= 12
    ensures var p := ParseMessage(OneHop, Encoded(m));
            p.Done? && Stored(p.value) == m <==>
            && m.opcode == OPCODE_QUERY && m.rcode == RCODE_OK && m.records == []
            && AllNamed(m.quests) && NamesOk(m)
  {
    DecodesExactly(m);
    HeaderSurvives(m);
    OpcodeSurvives(m);
    CountFits(|m.records|);
    var p := ParseMessage(OneHop, Encoded(m));
    if p.Done? {
      AcceptedSize(Encoded(m));
      HeaderIsRead(Encoded(m));
      StoredIs(m, ReadHeader(Encoded(m)), p.value);
    }
  }

  lemma HeaderIsRead(buf: bytes)
    requires ParseMessage(OneHop, buf).Done?
    ensures |buf| >= 12 && ParseMessage(OneHop, buf).value.header == ReadHeader(buf)
  {
  }

  lemma StoredIs(m: Msg, h: Header, d: Sections)
    requires d.header == h && |d.records| == h.records == |m.records| && h.id == m.id
    requires h.opcode == m.opcode <==> m.opcode == OPCODE_QUERY
    ensures Stored(d) == m <==>
            && m.opcode == OPCODE_QUERY && m.rcode == RCODE_OK && m.records == []
            && d == Sections(h, m.quests, m.answers, m.records)
  {
  }
}
