/** Which of the proxy's own responses its decoder can read. */
module DnsResponse {
  import opened Bytes
  import opened DnsNames
  import opened DnsMessage
  import opened DnsEncode
  import opened DnsDecode
  import opened DnsTable
  import opened DnsRoundTrip
  import opened DnsHeader
  import opened DnsCompression
  import opened DnsLimits
  import opened DnsProxy

  /** Every name is either spelled out in full or repeated in full: none is written as labels and
      then a pointer. */
  predicate Unchained(t: Chains, es: seq<Entry>)
    decreases |es|
  {
    es == [] ||
    ((es[0].name in t || Depth(t, es[0].name) == 0) && Unchained(Learn(t, es[0].name), es[1..]))
  }

  ghost predicate AllZero(t: Chains) {
    forall k :: k in t ==> t[k] == 0
  }

  /* ---- names repeated from the questions ---- */

  lemma {:induction false} DepthAtMostOne(t: Chains, s: Name)
    requires AllZero(t)
    ensures Depth(t, s) <= 1
    decreases |s|
  {
    if s != [] && s !in t {
      DepthAtMostOne(t, Suffix(s));
    }
  }

  lemma {:induction false} LearnZero(t: Chains, s: Name)
    requires AllZero(t) && (s in t || Depth(t, s) == 0)
    ensures AllZero(Learn(t, s))
    decreases |s|
  {
    if s != [] && s !in t {
      LearnZero(t, Suffix(s));
    }
  }

  lemma {:induction false} LearnKeeps(t: Chains, s: Name)
    ensures t.Keys <= Learn(t, s).Keys
    ensures forall k :: k in t ==> Learn(t, s)[k] == t[k]
    ensures s != [] ==> s in Learn(t, s)
    ensures s != [] && s !in t ==> Learn(t, s)[s] == Depth(t, s)
    decreases |s|
  {
    if s != [] && s !in t {
      LearnKeeps(t, Suffix(s));
    }
  }

  lemma {:induction false} UnchainedIsShallow(t: Chains, es: seq<Entry>)
    requires AllZero(t) && Unchained(t, es)
    ensures Shallow(t, es) && AllZero(LearnEntries(t, es))
    decreases |es|
  {
    if es != [] {
      DepthAtMostOne(t, es[0].name);
      LearnZero(t, es[0].name);
      UnchainedIsShallow(Learn(t, es[0].name), es[1..]);
    }
  }

  lemma {:induction false} LearnsNames(t: Chains, es: seq<Entry>)
    ensures t.Keys <= LearnEntries(t, es).Keys
    ensures forall k :: k in t ==> LearnEntries(t, es)[k] == t[k]
    ensures NamesOf(es) - {[]} <= LearnEntries(t, es).Keys
    decreases |es|
  {
    if es != [] {
      NamesOfFirst(es);
      LearnKeeps(t, es[0].name);
      LearnsNames(Learn(t, es[0].name), es[1..]);
    }
  }

  function NamesOf(es: seq<Entry>): set<Name> {
    set e | e in es :: e.name
  }

  lemma NamesOfBoth(a: seq<Entry>, b: seq<Entry>)
    ensures NamesOf(a + b) == NamesOf(a) + NamesOf(b)
  {
    forall n
      ensures n in NamesOf(a + b) <==> n in NamesOf(a) || n in NamesOf(b)
    {
      if n in NamesOf(a) {
        var e :| e in a && e.name == n;
        assert e in a + b;
      }
      if n in NamesOf(b) {
        var e :| e in b && e.name == n;
        assert e in a + b;
      }
    }
  }

  lemma NamesOfFirst(es: seq<Entry>)
    requires es != []
    ensures NamesOf(es) == {es[0].name} + NamesOf(es[1..])
  {
    assert es == [es[0]] + es[1..];
    NamesOfBoth([es[0]], es[1..]);
    assert NamesOf([es[0]]) == {es[0].name};
  }

  lemma {:induction false} RepeatsAreShallow(t: Chains, es: seq<Entry>)
    requires AllZero(t) && NamesOf(es) <= t.Keys
    ensures Shallow(t, es)
    decreases |es|
  {
    if es != [] {
      NamesOfFirst(es);
      DepthAtMostOne(t, es[0].name);
      RepeatsAreShallow(t, es[1..]);
    }
  }

  /** A name written as labels and a pointer is at least one pointer deep. */
  lemma {:induction false} ChainFound(t: Chains, es: seq<Entry>) returns (n: Name)
    requires !Unchained(t, es)
    ensures n in NamesOf(es) && n != []
    ensures n in LearnEntries(t, es) && LearnEntries(t, es)[n] >= 1
    decreases |es|
  {
    var t1 := Learn(t, es[0].name);
    NamesOfFirst(es);
    LearnKeeps(t, es[0].name);
    LearnsNames(t1, es[1..]);
    if es[0].name in t || Depth(t, es[0].name) == 0 {
      n := ChainFound(t1, es[1..]);
    } else {
      n := es[0].name;
    }
  }

  /** Repeating such a name takes two pointers. */
  lemma {:induction false} ChainBreaks(t: Chains, es: seq<Entry>, n: Name)
    requires n in NamesOf(es) && n != [] && n in t && t[n] >= 1
    ensures !Shallow(t, es)
    decreases |es|
  {
    NamesOfFirst(es);
    if n != es[0].name {
      LearnKeeps(t, es[0].name);
      ChainBreaks(Learn(t, es[0].name), es[1..], n);
    }
  }

  /* ---- the proxy's responses ---- */

  lemma EntriesOfBoth(q1: seq<Quest>, q2: seq<Quest>, a1: seq<Record>, a2: seq<Record>)
    ensures QuestEntries(q1 + q2) == QuestEntries(q1) + QuestEntries(q2)
    ensures RecordEntries(a1 + a2) == RecordEntries(a1) + RecordEntries(a2)
  {
  }

  lemma FirstSameNames(env: Env, q: Quest)
    ensures NamesOf(QuestEntries(FirstQuests(env, q))) == NamesOf(RecordEntries(FirstAnswers(env, q)))
    ensures [] !in NamesOf(QuestEntries(FirstQuests(env, q)))
  {
    var qs, rs := QuestEntries(FirstQuests(env, q)), RecordEntries(FirstAnswers(env, q));
    if Resolves(env, q) {
      assert qs[0].name == q.name && rs[0] in rs && rs[0].name == q.name;
      assert NamesOf(qs) == {q.name};
      assert NamesOf(rs) == {q.name};
    } else {
      assert qs == [] && rs == [];
    }
  }

  /** Each answered question is among the answers, and each answer is for an answered question. */
  lemma {:induction false} SameNames(env: Env, qs: seq<Quest>)
    ensures NamesOf(QuestEntries(AnsweredQuests(env, qs))) == NamesOf(RecordEntries(AllAnswers(env, qs)))
    ensures [] !in NamesOf(QuestEntries(AnsweredQuests(env, qs)))
    decreases |qs|
  {
    if qs == [] {
      assert QuestEntries([]) == [] && RecordEntries([]) == [];
    } else {
      var q1, a1 := FirstQuests(env, qs[0]), FirstAnswers(env, qs[0]);
      var q2, a2 := AnsweredQuests(env, qs[1..]), AllAnswers(env, qs[1..]);
      SameNames(env, qs[1..]);
      FirstSameNames(env, qs[0]);
      EntriesOfBoth(q1, q2, a1, a2);
      NamesOfBoth(QuestEntries(q1), QuestEntries(q2));
      NamesOfBoth(RecordEntries(a1), RecordEntries(a2));
    }
  }

  lemma AllNamedBySet(qs: seq<Quest>)
    requires [] !in NamesOf(QuestEntries(qs))
    ensures AllNamed(qs)
  {
    forall i | 0 <= i < |qs|
      ensures qs[i].name != []
    {
      assert QuestEntries(qs)[i] in QuestEntries(qs);
    }
  }

  /** Questions, then records that repeat exactly their names, then a record for the root. */
  lemma RepeatedNames(rq: seq<Entry>, ra: seq<Entry>, rx: seq<Entry>)
    requires NamesOf(rq) == NamesOf(ra) && [] !in NamesOf(rq)
    requires |rx| == 1 && rx[0].name == []
    ensures Shallow(map[], rq + ra + rx) <==> Unchained(map[], rq)
  {
    var t := LearnEntries(map[], rq);
    ShallowAppended(map[], rq, ra);
    ShallowAppended(map[], rq + ra, rx);
    LearnsNames(map[], rq);
    if Unchained(map[], rq) {
      UnchainedIsShallow(map[], rq);
      RepeatsAreShallow(t, ra);
      RootIsShallow(LearnEntries(map[], rq + ra), rx);
    } else {
      var n := ChainFound(map[], rq);
      ChainBreaks(t, ra, n);
    }
  }

  /** A response is shallow exactly when its questions are unchained. */
  lemma ResponseShallow(env: Env, id: u16, opcode: byte, qs: seq<Quest>)
    ensures var m := Response(env, id, opcode, qs);
            && AllNamed(m.quests)
            && (Shallow(map[], Entries(m)) <==> Unchained(map[], QuestEntries(m.quests)))
  {
    var m := Response(env, id, opcode, qs);
    SameNames(env, qs);
    AllNamedBySet(m.quests);
    RepeatedNames(QuestEntries(m.quests), RecordEntries(m.answers), RecordEntries(m.records));
  }

  lemma RootIsShallow(t: Chains, es: seq<Entry>)
    requires |es| == 1 && es[0].name == []
    ensures Shallow(t, es)
  {
    assert Shallow(Learn(t, []), es[1..]);
  }

  /** A response that the encoder can write is read back whole by the decoder exactly when none of
      its questions ends in the name, or a suffix, of an earlier one without repeating it. */
  lemma ResponseDecodes(env: Env, id: u16, opcode: byte, qs: seq<Quest>)
    requires DnsRoundTrip.Encodable(Response(env, id, opcode, qs))
    ensures var m := Response(env, id, opcode, qs);
            && |Encoded(m)| >= 12
            && ParseMessage(OneHop, Encoded(m)) ==
               if Unchained(map[], QuestEntries(m.quests))
               then Done(Sections(ReadHeader(Encoded(m)), m.quests, m.answers, m.records), |Encoded(m)|)
               else Fail(RecursivePointer)
  {
    ResponseShallow(env, id, opcode, qs);
    DecodesIffShallow(Response(env, id, opcode, qs));
  }

  /* ---- a response the decoder refuses ---- */

  /** Knows the addresses of b.c and x.b.c. */
  function TwoNames(name: Name): seq<Addr> {
    if name == [98, DOT, 99] || name == [120, DOT, 98, DOT, 99] then [[1, 2, 3, 4]] else []
  }

  const TWO_QUESTS := [AddressQuest([98, DOT, 99]), AddressQuest([120, DOT, 98, DOT, 99])]

  const TWO_ANSWERS := [AddressAnswer([98, DOT, 99], [1, 2, 3, 4], MAX_TTL),
                        AddressAnswer([120, DOT, 98, DOT, 99], [1, 2, 3, 4], MAX_TTL)]

  const TWO_RESPONSE := Msg(1, OPCODE_QUERY, RCODE_OK, TWO_QUESTS, TWO_ANSWERS, [EMPTY_SECTION])

  lemma TwoResponseIs(env: Env)
    requires env.resolver == TwoNames && env.maxTTL == MAX_TTL
    ensures Response(env, 1, OPCODE_QUERY, TWO_QUESTS) == TWO_RESPONSE
  {
    var qs, none := TWO_QUESTS, TWO_QUESTS[2..];
    assert qs[1..][1..] == none == [];
    assert AnsweredQuests(env, none) == [] && AllAnswers(env, none) == [];
    assert FirstQuests(env, qs[0]) == [qs[0]] && FirstQuests(env, qs[1]) == [qs[1]];
    assert FirstAnswers(env, qs[0]) == [TWO_ANSWERS[0]] && FirstAnswers(env, qs[1]) == [TWO_ANSWERS[1]];
    assert AnsweredQuests(env, qs[1..]) == [qs[1]] + AnsweredQuests(env, none);
    assert AllAnswers(env, qs[1..]) == [TWO_ANSWERS[1]] + AllAnswers(env, none);
  }

  lemma TwoEncodable()
    ensures DnsRoundTrip.Encodable(TWO_RESPONSE)
  {
    ChainedNames();
    assert WellFormed([]) && WellFormed([99]) && WellFormed([98, DOT, 99]) && WellFormed([120, DOT, 98, DOT, 99]);
    CompactEncodable(TWO_RESPONSE, 5);
  }

  lemma TwoChained()
    ensures !Unchained(map[], QuestEntries(TWO_QUESTS))
  {
    ChainTable();
    var es := QuestEntries(TWO_QUESTS);
    assert es[0].name == [98, DOT, 99] && es[1..][0].name == [120, DOT, 98, DOT, 99];
    assert !Unchained(Learn(map[], [98, DOT, 99]), es[1..]);
  }

  /** Asked for b.c and then for x.b.c, a proxy that knows both gives a response its own decoder
      refuses. */
  lemma ResponseRefused(env: Env)
    requires env.resolver == TwoNames && env.maxTTL == MAX_TTL
    ensures var m := Response(env, 1, OPCODE_QUERY, TWO_QUESTS);
            && DnsRoundTrip.Encodable(m)
            && ParseMessage(OneHop, Encoded(m)) == Fail(RecursivePointer)
  {
    TwoResponseIs(env);
    TwoEncodable();
    TwoChained();
    ResponseDecodes(env, 1, OPCODE_QUERY, TWO_QUESTS);
  }

  /* ---- a single question ---- */

  lemma {:induction false} ShortNameFits(g: Enc, s: Name)
    requires s == [] || |g.buf| + |s| <= REACH
    ensures Fits(g, s, {}) && Far(g, s, {}) == {}
    decreases |s|
  {
    if s != [] && s !in g.table {
      ShortNameFits(PutLabel(g, s), Suffix(s));
    }
  }

  lemma {:induction false} PutNameLearns(g: Enc, s: Name, k: Name)
    ensures k in g.table ==> k in PutName(g, s).table
    ensures s != [] ==> s in PutName(g, s).table
    decreases |s|
  {
    if s != [] && s !in g.table {
      PutNameLearns(PutLabel(g, s), Suffix(s), k);
      PutNameLearns(PutLabel(g, s), Suffix(s), s);
    }
  }

  lemma {:induction false} RepeatsFit(g: Enc, es: seq<Entry>, n: Name)
    requires n in g.table
    requires forall i :: 0 <= i < |es| ==> es[i].name == n || es[i].name == []
    ensures EntriesFit(g, es, {})
    decreases |es|
  {
    if es != [] {
      RepeatsFit(PutEntry(g, es[0]), es[1..], n);
    }
  }

  /** The address list fits the answer count, and each address its length. */
  predicate ListFits(list: seq<Addr>) {
    |list| < WORD16 && forall i :: 0 <= i < |list| ==> |list[i]| < WORD16
  }

  lemma SingleResponse(env: Env, id: u16, opcode: byte, q: Quest)
    requires Resolves(env, q)
    ensures var f := Local(env, q.name);
            Response(env, id, opcode, [q]) ==
            Msg(id, opcode, RCODE_OK, [AddressQuest(q.name)], AddressAnswers(q.name, f.list, f.ttl), [EMPTY_SECTION])
  {
    var none: seq<Quest> := [q][1..];
    assert none == [];
    assert AnsweredQuests(env, none) == [] && AllAnswers(env, none) == [];
    assert AnsweredQuests(env, [q]) == FirstQuests(env, q) + AnsweredQuests(env, none);
    assert AllAnswers(env, [q]) == FirstAnswers(env, q) + AllAnswers(env, none);
  }

  lemma SingleEncodable(m: Msg, name: Name, list: seq<Addr>, ttl: u32)
    requires name != [] && WellFormed(name) && 12 + |name| <= REACH && ListFits(list)
    requires m.quests == [AddressQuest(name)] && m.answers == AddressAnswers(name, list, ttl)
    requires m.records == [EMPTY_SECTION]
    ensures DnsRoundTrip.Encodable(m)
  {
    SingleEntries(m, name, list, ttl);
    RepeatsWellFormed(Entries(m), name);
    AddressesFit(name, list, ttl);
    FirstThenRepeats(Start(m), Entries(m), name);
  }

  lemma SingleEntries(m: Msg, name: Name, list: seq<Addr>, ttl: u32)
    requires m.quests == [AddressQuest(name)] && m.answers == AddressAnswers(name, list, ttl)
    requires m.records == [EMPTY_SECTION]
    ensures var es := Entries(m);
            |es| > 0 && es[0].name == name && forall i :: 0 <= i < |es| ==> es[i].name == name || es[i].name == []
  {
  }

  lemma RepeatsWellFormed(es: seq<Entry>, name: Name)
    requires WellFormed(name)
    requires forall i :: 0 <= i < |es| ==> es[i].name == name || es[i].name == []
    ensures NamesWellFormed(es)
  {
    assert WellFormed([]);
  }

  lemma AddressesFit(name: Name, list: seq<Addr>, ttl: u32)
    requires ListFits(list)
    ensures DataFits(AddressAnswers(name, list, ttl)) && |AddressAnswers(name, list, ttl)| < WORD16
  {
  }

  lemma FirstThenRepeats(g: Enc, es: seq<Entry>, name: Name)
    requires name != [] && |g.buf| + |name| <= REACH
    requires es != [] && es[0].name == name
    requires forall i :: 0 <= i < |es| ==> es[i].name == name || es[i].name == []
    ensures EntriesFit(g, es, {})
  {
    ShortNameFits(g, name);
    PutNameLearns(g, name, name);
    RepeatsFit(PutEntry(g, es[0]), es[1..], name);
  }

  lemma {:induction false} NothingLearned(s: Name)
    ensures Depth(map[], s) == 0
    decreases |s|
  {
    if s != [] {
      NothingLearned(Suffix(s));
    }
  }

  /** The bytes are read to the end as a standard response, without an error, with this id, question and answers. */
  predicate ReadsBack(buf: bytes, id: u16, name: Name, answers: seq<Record>) {
    var back := ParseMessage(OneHop, buf);
    && back.Done? && back.next == |buf|
    && back.value.header.id == id && back.value.header.opcode == OPCODE_QUERY
    && back.value.header.resp && back.value.header.rcode == 0
    && back.value.quests == [AddressQuest(name)]
    && back.value.answers == answers
  }

  /** The reply to a request with a single question that resolves is read back with the same id,
      that question, and one answer for each address. */
  lemma SingleQuestionReply(env: Env, request: bytes, d: Sections, end: nat, q: Quest)
    requires ParseMessage(OneHop, request) == Done(d, end)
    requires d.quests == [q] && d.header.opcode == OPCODE_QUERY
    requires Resolves(env, q) && WellFormed(q.name) && 12 + |q.name| <= REACH && ListFits(Local(env, q.name).list)
    ensures var f := Local(env, q.name);
            var reply := ReplyTo(env, request);
            && reply.Replied?
            && ReadsBack(reply.response, d.header.id, q.name, AddressAnswers(q.name, f.list, f.ttl))
  {
    SingleReply(env, d.header.id, q);
  }

  lemma SingleReply(env: Env, id: u16, q: Quest)
    requires Resolves(env, q) && WellFormed(q.name) && 12 + |q.name| <= REACH && ListFits(Local(env, q.name).list)
    ensures var f := Local(env, q.name);
            ReadsBack(Encoded(Response(env, id, OPCODE_QUERY, [q])), id, q.name, AddressAnswers(q.name, f.list, f.ttl))
  {
    var f, m := Local(env, q.name), Response(env, id, OPCODE_QUERY, [q]);
    SingleResponse(env, id, OPCODE_QUERY, q);
    SingleEncodable(m, q.name, f.list, f.ttl);
    ResponseDecodes(env, id, OPCODE_QUERY, [q]);
    OneUnchained(QuestEntries(m.quests));
    HeaderSurvives(m);
    FlagsRead(m);
  }

  lemma OneUnchained(es: seq<Entry>)
    requires |es| == 1
    ensures Unchained(map[], es)
  {
    NothingLearned(es[0].name);
    assert Unchained(Learn(map[], es[0].name), es[1..]);
  }
}
