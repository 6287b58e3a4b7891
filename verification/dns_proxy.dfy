/** The resolving proxy: questions answered from the local names and the cache. */
module DnsProxy {
  import opened Bytes
  import opened DnsNames
  import opened DnsMessage
  import opened DnsEncode
  import opened DnsDecode
  import C = DnsCache

  const MAX_QUEST := 8
  const MIN_TTL: u32 := 600
  const MAX_TTL: u32 := 86400

  /** What names are resolved from: the resolver, the cache, and the time. */
  datatype Env = Env(resolver: Name -> seq<Addr>, cache: C.Entries, maxTTL: u32, now: C.i64)

  function Local(env: Env, name: Name): C.Found {
    if env.resolver(name) != [] then C.Found(env.resolver(name), env.maxTTL)
    else C.Lookup(env.cache, name, env.now)
  }

  predicate Resolves(env: Env, q: Quest) {
    q.name != [] && Local(env, q.name).list != []
  }

  /** The questions that can be answered, asked again for an address. */
  function AnsweredQuests(env: Env, qs: seq<Quest>): seq<Quest>
    decreases |qs|
  {
    if qs == [] then []
    else FirstQuests(env, qs[0]) + AnsweredQuests(env, qs[1..])
  }

  /** An answer for every address of every question that can be answered. */
  function AllAnswers(env: Env, qs: seq<Quest>): seq<Record>
    decreases |qs|
  {
    if qs == [] then []
    else FirstAnswers(env, qs[0]) + AllAnswers(env, qs[1..])
  }

  function Response(env: Env, id: u16, opcode: byte, qs: seq<Quest>): Msg {
    Msg(id, opcode, RCODE_OK, AnsweredQuests(env, qs), AllAnswers(env, qs), [EMPTY_SECTION])
  }

  function FirstQuests(env: Env, q: Quest): seq<Quest> {
    if Resolves(env, q) then [AddressQuest(q.name)] else []
  }

  function FirstAnswers(env: Env, q: Quest): seq<Record> {
    var f := Local(env, q.name);
    if Resolves(env, q) then AddressAnswers(q.name, f.list, f.ttl) else []
  }

  /** A response with what these questions add to it. */
  function Answered(m: Msg, env: Env, qs: seq<Quest>): Msg {
    m.(quests := m.quests + AnsweredQuests(env, qs), answers := m.answers + AllAnswers(env, qs))
  }

  function AnsweredOne(m: Msg, env: Env, q: Quest): Msg {
    m.(quests := m.quests + FirstQuests(env, q), answers := m.answers + FirstAnswers(env, q))
  }

  lemma AnswerStep(m: Msg, env: Env, qs: seq<Quest>, i: nat)
    requires i < |qs|
    ensures Answered(m, env, qs[i..]) == Answered(AnsweredOne(m, env, qs[i]), env, qs[i + 1..])
    ensures !Resolves(env, qs[i]) ==> AnsweredOne(m, env, qs[i]) == m
  {
    assert qs[i..][0] == qs[i] && qs[i..][1..] == qs[i + 1..];
  }

  datatype HandleError = NoQuest | TooManyQuest

  datatype HandleResult = Handled | Unhandled(error: HandleError)

  class Proxy {
    const resolver: Name -> seq<Addr>
    const cache: C.Cache
    const minTTL: u32
    const maxTTL: u32

    constructor (resolver: Name -> seq<Addr>)
      ensures this.resolver == resolver && cache.m == map[] && fresh(cache)
      ensures minTTL == MIN_TTL && maxTTL == MAX_TTL
    {
      this.resolver := resolver;
      cache := new C.Cache();
      minTTL, maxTTL := MIN_TTL, MAX_TTL;
    }

    function At(now: C.i64): Env
      reads cache
    {
      Env(resolver, cache.m, maxTTL, now)
    }

    method GetLocal(name: Name, now: C.i64) returns (list: seq<Addr>, ttl: u32)
      ensures C.Found(list, ttl) == Local(At(now), name)
    {
      list := resolver(name);
      if |list| != 0 {
        return list, maxTTL;
      }
      list, ttl := cache.Get(name, now);
    }

    method HandleMessage(resp: Message, req: Message, now: C.i64) returns (r: HandleResult)
      requires resp != req
      modifies resp
      ensures if |req.quests| == 0 then r == Unhandled(NoQuest) && resp.View() == old(resp.View())
              else if |req.quests| > MAX_QUEST then r == Unhandled(TooManyQuest) && resp.View() == old(resp.View())
              else
                && r == Handled
                && resp.View() == Msg(req.id, req.opcode, old(resp.rcode),
                                      old(resp.quests) + AnsweredQuests(At(now), req.quests),
                                      old(resp.answers) + AllAnswers(At(now), req.quests),
                                      old(resp.records) + [Record([], 41, 512, 0, [])])
    {
      if |req.quests| == 0 {
        return Unhandled(NoQuest);
      }
      if |req.quests| > MAX_QUEST {
        return Unhandled(TooManyQuest);
      }
      resp.id := req.id;
      resp.opcode := req.opcode;
      resp.AddEmptySec();

      ghost var env, qs := At(now), req.quests;
      ghost var goal := Answered(resp.View(), env, qs);
      // flag for each question, and their count
      var resolved := new bool[MAX_QUEST](_ => false);
      var rc := 0;
      for i := 0 to |req.quests|
        invariant req.quests == qs && cache.m == env.cache
        invariant Answered(resp.View(), env, qs[i..]) == goal
        invariant rc <= i
      {
        var q := req.quests[i];
        AnswerStep(resp.View(), env, qs, i);
        var ok := q.name == [];
        if !ok {
          ok := AnswerOne(resp, q, now);
        }
        if ok {
          rc := rc + 1;
          resolved[i] := true;
        }
      }
      AnsweredNone(resp.View(), env);
      return Handled;
    }

    method AnswerOne(resp: Message, q: Quest, now: C.i64) returns (ok: bool)
      requires q.name != []
      modifies resp
      ensures ok <==> Resolves(At(now), q)
      ensures resp.View() == AnsweredOne(old(resp.View()), At(now), q)
    {
      var list, ttl := GetLocal(q.name, now);
      if |list| == 0 {
        return false;
      }
      resp.AddQuest(q.name);
      ghost var before := resp.answers;
      resp.AddAnswers(q.name, list, ttl);
      AddressAnswersAre(q.name, list, ttl, resp.answers[|before|..]);
      assert resp.answers == before + resp.answers[|before|..];
      return true;
    }

    method Reply(req: Message, now: C.i64) returns (r: Reply)
      ensures r == if 1 <= |req.quests| <= MAX_QUEST then
                Replied(Encoded(Response(At(now), req.id, req.opcode, req.quests)))
              else Panicked
    {
      var resp := new Message();
      var handled := HandleMessage(resp, req, now);
      if handled.Unhandled? {
        return Panicked;
      }
      ResponseIs(At(now), req.id, req.opcode, req.quests);
      var out := Encode(resp, []);
      return Replied(out);
    }

    /** No reply: the original panics, on a request that cannot be decoded or handled. */
    method Handle(request: bytes, now: C.i64) returns (r: Reply)
      ensures r == ReplyTo(At(now), request)
    {
      var req := new Message();
      var decoded := Decode(req, request);
      if decoded.Err? {
        return Panicked;
      }
      r := Reply(req, now);
    }
  }

  function Opened(m: Msg, id: u16, opcode: byte): Msg {
    m.(id := id, opcode := opcode, records := m.records + [EMPTY_SECTION])
  }

  lemma AnsweredNone(m: Msg, env: Env)
    ensures Answered(m, env, []) == m
  {
    assert m.quests + [] == m.quests && m.answers + [] == m.answers;
  }

  lemma ResponseIs(env: Env, id: u16, opcode: byte, qs: seq<Quest>)
    ensures Answered(Opened(Msg(0, 0, 0, [], [], []), id, opcode), env, qs) == Response(env, id, opcode, qs)
  {
    assert [] + AnsweredQuests(env, qs) == AnsweredQuests(env, qs);
    assert [] + AllAnswers(env, qs) == AllAnswers(env, qs);
  }

  datatype Reply = Panicked | Replied(response: bytes)

  function ReplyTo(env: Env, request: bytes): Reply {
    match ParseMessage(OneHop, request)
    case Fail(_) => Panicked
    case Done(d, _) =>
      if 1 <= |d.quests| <= MAX_QUEST then Replied(Encoded(Response(env, d.header.id, d.header.opcode, d.quests)))
      else Panicked
  }
}
