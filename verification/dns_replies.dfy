/** What a reply says: which addresses are given for which questions, from the resolver's lists and
    the cache alone. */
module DnsReplies {
  import opened Bytes
  import opened DnsNames
  import opened DnsMessage
  import opened DnsEncode
  import opened DnsDecode
  import opened DnsTable
  import opened DnsRoundTrip
  import opened DnsHeader
  import opened DnsLimits
  import opened DnsProxy
  import opened DnsResponse
  import C = DnsCache

  /* ---- what is known of a name ---- */

  /** The cached list of a name is still in use. */
  predicate Cached(env: Env, name: Name) {
    name in env.cache &&
    var e := env.cache[name];
    if C.InRange(e, env.now) then C.Left(e, env.now) > 0 else C.Left(e, env.now) > WORD64
  }

  /** The resolver's list, or else the cached one. The root has none. */
  function Known(env: Env, name: Name): seq<Addr> {
    if name == [] then []
    else if env.resolver(name) != [] then env.resolver(name)
    else if Cached(env, name) then env.cache[name].list
    else []
  }

  /** The longest lifetime for what the resolver gives, and what is left for what is cached. */
  function Lifetime(env: Env, name: Name): u32 {
    if env.resolver(name) != [] || name !in env.cache then env.maxTTL
    else C.Left(env.cache[name], env.now) % WORD32
  }

  lemma LocalIs(env: Env, q: Quest)
    ensures Resolves(env, q) <==> Known(env, q.name) != []
    ensures Resolves(env, q) ==>
              Local(env, q.name).list == Known(env, q.name) && Local(env, q.name).ttl == Lifetime(env, q.name)
  {
    if q.name in env.cache {
      C.LookupIs(env.cache, q.name, env.now);
    }
  }

  /* ---- counting ---- */

  /** How many addresses are known for the first n questions, and how many of those have any. */
  function Addresses(env: Env, qs: seq<Quest>, n: nat): nat
    requires n <= |qs|
  {
    if n == 0 then 0 else Addresses(env, qs, n - 1) + |Known(env, qs[n - 1].name)|
  }

  function Answerable(env: Env, qs: seq<Quest>, n: nat): nat
    requires n <= |qs|
  {
    if n == 0 then 0 else Answerable(env, qs, n - 1) + (if Known(env, qs[n - 1].name) != [] then 1 else 0)
  }

  /** Each address of each question is given once, in order, by an answer with that question's name. */
  ghost predicate AnswersSpelled(env: Env, qs: seq<Quest>, answers: seq<Record>) {
    && |answers| == Addresses(env, qs, |qs|)
    && forall i, j :: 0 <= i < |qs| && 0 <= j < |Known(env, qs[i].name)| ==>
         AnswerSpelled(env, qs[i].name, answers, Addresses(env, qs, i), j)
  }

  predicate AnswerSpelled(env: Env, name: Name, answers: seq<Record>, start: nat, j: nat) {
    && start + j < |answers| && j < |Known(env, name)|
    && answers[start + j] == Record(name, 1, 1, Lifetime(env, name), Known(env, name)[j])
  }

  /** Each question that can be answered is asked once, in order, for an address. */
  ghost predicate QuestsSpelled(env: Env, qs: seq<Quest>, quests: seq<Quest>) {
    && |quests| == Answerable(env, qs, |qs|)
    && forall i :: 0 <= i < |qs| && Known(env, qs[i].name) != [] ==>
         QuestSpelled(quests, Answerable(env, qs, i), qs[i].name)
  }

  predicate QuestSpelled(quests: seq<Quest>, k: nat, name: Name) {
    k < |quests| && quests[k] == Quest(name, 1, 1)
  }

  lemma {:induction false} CountsOfPrefix(env: Env, qs: seq<Quest>, more: seq<Quest>, n: nat)
    requires n <= |qs| && qs <= more
    ensures Addresses(env, more, n) == Addresses(env, qs, n) && Answerable(env, more, n) == Answerable(env, qs, n)
  {
    if n > 0 {
      CountsOfPrefix(env, qs, more, n - 1);
    }
  }

  lemma {:induction false} AnsweredSnoc(env: Env, qs: seq<Quest>, q: Quest)
    ensures AnsweredQuests(env, qs + [q]) == AnsweredQuests(env, qs) + FirstQuests(env, q)
    ensures AllAnswers(env, qs + [q]) == AllAnswers(env, qs) + FirstAnswers(env, q)
    decreases |qs|
  {
    if qs == [] {
      var none: seq<Quest> := (qs + [q])[1..];
      assert none == [] && (qs + [q])[0] == q;
      assert AnsweredQuests(env, none) == [] && AllAnswers(env, none) == [];
    } else {
      assert (qs + [q])[1..] == qs[1..] + [q];
      AnsweredSnoc(env, qs[1..], q);
    }
  }

  lemma {:induction false} ResponseSpelled(env: Env, qs: seq<Quest>)
    ensures AnswersSpelled(env, qs, AllAnswers(env, qs)) && QuestsSpelled(env, qs, AnsweredQuests(env, qs))
    decreases |qs|
  {
    if qs != [] {
      var n := |qs| - 1;
      var before, q := qs[..n], qs[n];
      assert qs == before + [q];
      ResponseSpelled(env, before);
      AnsweredSnoc(env, before, q);
      LocalIs(env, q);
      AnswersOneMore(env, before, q, AllAnswers(env, before));
      QuestsOneMore(env, before, q, AnsweredQuests(env, before));
    }
  }

  lemma AnswersOneMore(env: Env, qs: seq<Quest>, q: Quest, answers: seq<Record>)
    requires AnswersSpelled(env, qs, answers)
    requires Resolves(env, q) <==> Known(env, q.name) != []
    requires Resolves(env, q) ==>
               Local(env, q.name).list == Known(env, q.name) && Local(env, q.name).ttl == Lifetime(env, q.name)
    ensures AnswersSpelled(env, qs + [q], answers + FirstAnswers(env, q))
  {
    var more, all := qs + [q], answers + FirstAnswers(env, q);
    CountsOfPrefix(env, qs, more, |qs|);
    forall i, j | 0 <= i < |more| && 0 <= j < |Known(env, more[i].name)|
      ensures AnswerSpelled(env, more[i].name, all, Addresses(env, more, i), j)
    {
      if i < |qs| {
        CountsOfPrefix(env, qs, more, i);
        assert AnswerSpelled(env, qs[i].name, answers, Addresses(env, qs, i), j);
      }
    }
  }

  lemma QuestsOneMore(env: Env, qs: seq<Quest>, q: Quest, quests: seq<Quest>)
    requires QuestsSpelled(env, qs, quests)
    requires Resolves(env, q) <==> Known(env, q.name) != []
    ensures QuestsSpelled(env, qs + [q], quests + FirstQuests(env, q))
  {
    var more, all := qs + [q], quests + FirstQuests(env, q);
    CountsOfPrefix(env, qs, more, |qs|);
    forall i | 0 <= i < |more| && Known(env, more[i].name) != []
      ensures QuestSpelled(all, Answerable(env, more, i), more[i].name)
    {
      if i < |qs| {
        CountsOfPrefix(env, qs, more, i);
        assert QuestSpelled(quests, Answerable(env, qs, i), qs[i].name);
      }
    }
  }

  /* ---- replies ---- */

  /** There is a reply to exactly the requests of one to eight questions that can be decoded. */
  lemma RepliesIff(env: Env, request: bytes)
    ensures ReplyTo(env, request).Replied? <==>
            var p := ParseMessage(OneHop, request); p.Done? && 1 <= |p.value.quests| <= 8
  {
  }

  /** A reply is a response to the request's id, with what is left of its opcode and without an
      error, that asks the questions that can be answered and gives every known address of each, in
      order. */
  ghost predicate Answers(env: Env, id: u16, opcode: byte, qs: seq<Quest>, response: bytes) {
    var p := ParseMessage(OneHop, response);
    && p.Done? && p.next == |response|
    && p.value.header.id == id && p.value.header.opcode == opcode / 8 % 16 && p.value.header.rcode == 0
    && (p.value.answers != [] ==> p.value.header.resp)
    && QuestsSpelled(env, qs, p.value.quests) && AnswersSpelled(env, qs, p.value.answers)
    && p.value.records == [Record([], 41, 512, 0, [])]
  }

  lemma EncodedSpelled(env: Env, qs: seq<Quest>, m: Msg)
    requires m.quests == AnsweredQuests(env, qs) && m.answers == AllAnswers(env, qs)
    requires m.records == [EMPTY_SECTION] && m.rcode == RCODE_OK
    requires |Encoded(m)| >= 12
    requires ParseMessage(OneHop, Encoded(m)) ==
             Done(Sections(ReadHeader(Encoded(m)), m.quests, m.answers, m.records), |Encoded(m)|)
    ensures Answers(env, m.id, m.opcode, qs, Encoded(m))
  {
    ResponseSpelled(env, qs);
    HeaderSurvives(m);
    FlagsRead(m);
  }

  /** Whatever it is asked, when the response can be encoded and none of its questions chains on an
      earlier one. */
  lemma ReplySpelled(env: Env, request: bytes, d: Sections, end: nat)
    requires ParseMessage(OneHop, request) == Done(d, end) && 1 <= |d.quests| <= 8
    requires DnsRoundTrip.Encodable(Response(env, d.header.id, d.header.opcode, d.quests))
    requires Unchained(map[], QuestEntries(AnsweredQuests(env, d.quests)))
    ensures ReplyTo(env, request).Replied?
    ensures Answers(env, d.header.id, d.header.opcode, d.quests, ReplyTo(env, request).response)
  {
    ResponseComesBack(env, d.header.id, d.header.opcode, d.quests);
  }

  lemma ResponseComesBack(env: Env, id: u16, opcode: byte, qs: seq<Quest>)
    requires DnsRoundTrip.Encodable(Response(env, id, opcode, qs))
    requires Unchained(map[], QuestEntries(AnsweredQuests(env, qs)))
    ensures Answers(env, id, opcode, qs, Encoded(Response(env, id, opcode, qs)))
  {
    ResponseDecodes(env, id, opcode, qs);
    EncodedSpelled(env, qs, Response(env, id, opcode, qs));
  }

  /** A response to this id and name, with each address of the list, in order. */
  predicate GivesEach(response: bytes, id: u16, name: Name, ttl: u32, list: seq<Addr>) {
    var p := ParseMessage(OneHop, response);
    && p.Done? && p.next == |response|
    && p.value.header.id == id && p.value.header.resp
    && p.value.quests == [Quest(name, 1, 1)]
    && |p.value.answers| == |list|
    && forall i :: 0 <= i < |list| ==> p.value.answers[i] == Record(name, 1, 1, ttl, list[i])
  }

  /** A single question whose name the resolver knows is answered with each of its addresses, in
      order, each for the longest lifetime. */
  lemma SingleQuestionAddresses(env: Env, request: bytes, d: Sections, end: nat, q: Quest)
    requires ParseMessage(OneHop, request) == Done(d, end)
    requires d.quests == [q] && d.header.opcode == 0
    requires q.name != [] && WellFormed(q.name) && 12 + |q.name| <= REACH
    requires env.resolver(q.name) != [] && ListFits(env.resolver(q.name))
    ensures ReplyTo(env, request).Replied?
    ensures GivesEach(ReplyTo(env, request).response, d.header.id, q.name, env.maxTTL, env.resolver(q.name))
  {
    SingleGivesEach(env, d.header.id, q);
  }

  lemma SingleGivesEach(env: Env, id: u16, q: Quest)
    requires q.name != [] && WellFormed(q.name) && 12 + |q.name| <= REACH
    requires env.resolver(q.name) != [] && ListFits(env.resolver(q.name))
    ensures GivesEach(Encoded(Response(env, id, 0, [q])), id, q.name, env.maxTTL, env.resolver(q.name))
  {
    SingleReply(env, id, q);
    EachIsGiven(Encoded(Response(env, id, 0, [q])), id, q.name, env.maxTTL, env.resolver(q.name));
  }

  lemma EachIsGiven(response: bytes, id: u16, name: Name, ttl: u32, list: seq<Addr>)
    requires ReadsBack(response, id, name, AddressAnswers(name, list, ttl))
    ensures GivesEach(response, id, name, ttl, list)
  {
  }
}
