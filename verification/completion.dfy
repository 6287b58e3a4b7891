/** When a tunnel can still deliver all that was sent: exactly when no connection that nobody serves
    any more is sent more than its queue can hold. */
module Completion {
  import opened Bytes
  import opened ProxyPacket
  import opened Tunnel
  import opened EndToEnd

  type Events = seq<EndToEnd.Event>

  lemma {:induction false} RunAppended(r: Receiver, a: Events, b: Events, salt: u32)
    ensures RunAll(r, a + b, salt) == RunAll(RunAll(r, a, salt), b, salt)
    decreases |a|
  {
    if a == [] {
      assert a + b == b;
    } else {
      assert (a + b)[1..] == a[1..] + b;
      RunAppended(Proceed(r, a[0], salt), a[1..], b, salt);
    }
  }

  lemma RunOne(r: Receiver, e: EndToEnd.Event, salt: u32)
    ensures RunAll(r, [e], salt) == Proceed(r, e, salt)
  {
    assert [e][1..] == [];
    assert RunAll(Proceed(r, e, salt), [], salt) == Proceed(r, e, salt);
  }

  /* ---- what any run keeps ---- */

  /** From t to t' connections last, and queues stay within their capacity. */
  ghost predicate Follows(t: Conns, t': Conns) {
    && (Bounded(t) ==> Bounded(t'))
    && forall cid :: cid in t ==> cid in t' && Lasts(t[cid], t'[cid])
  }

  lemma StepFollows(t: Conns, e: Tunnel.Event)
    ensures Follows(t, Apply(t, e).0)
  {
    if Bounded(t) {
      StepBounded(t, e);
    }
    forall cid | cid in t
      ensures cid in Apply(t, e).0 && Lasts(t[cid], Apply(t, e).0[cid])
    {
      StepOnOne(t, e, cid);
    }
  }

  lemma ProceedFollows(r: Receiver, e: EndToEnd.Event, salt: u32)
    ensures Follows(r.conns, Proceed(r, e, salt).conns)
  {
    match e
    case TakeOne(cid, w) => StepFollows(r.conns, Take(cid, w));
    case StopOne(cid) => StepFollows(r.conns, Stop(cid));
    case ReadFrame =>
      if r.held.Held? {
        StepFollows(r.conns, Deliver(r.held.packet));
      } else if NextPacket(r.rest, salt).0.Packet? {
        StepFollows(r.conns, Deliver(NextPacket(r.rest, salt).0.packet));
      }
  }

  lemma FollowsOn(t: Conns, u: Conns, v: Conns)
    requires Follows(t, u) && Follows(u, v)
    ensures Follows(t, v)
  {
  }

  lemma {:induction false} RunFollows(r: Receiver, es: Events, salt: u32)
    ensures Follows(r.conns, RunAll(r, es, salt).conns)
    decreases |es|
  {
    if es != [] {
      var next := Proceed(r, es[0], salt);
      ProceedFollows(r, es[0], salt);
      RunFollows(next, es[1..], salt);
      FollowsOn(r.conns, next.conns, RunAll(r, es, salt).conns);
    }
  }

  /* ---- emptying the queues that are served ---- */

  function AllPassed(queue: seq<bytes>): seq<Passed> {
    seq(|queue|, i requires 0 <= i < |queue| => Passed(queue[i], true))
  }

  function Drained(c: ConnState): ConnState {
    if c.serving then c.(queue := [], passed := c.passed + AllPassed(c.queue)) else c
  }

  /** Some connections have passed on all that waited, if they are served. */
  function DrainedAt(t: Conns, cids: set<ConnID>): Conns {
    map k | k in t :: if k in cids then Drained(t[k]) else t[k]
  }

  lemma {:induction false} DrainOne(r: Receiver, cid: ConnID, salt: u32) returns (es: Events)
    requires cid in r.conns
    ensures RunAll(r, es, salt) == r.(conns := r.conns[cid := Drained(r.conns[cid])])
    decreases |r.conns[cid].queue|
  {
    var c := r.conns[cid];
    if !c.serving || c.queue == [] {
      es := [];
      assert Drained(c) == c;
      assert r.conns[cid := c] == r.conns;
    } else {
      var next := Proceed(r, EndToEnd.TakeOne(cid, Written), salt);
      var more := DrainOne(next, cid, salt);
      es := [EndToEnd.TakeOne(cid, Written)] + more;
      assert es[1..] == more;
      DrainedLater(c);
      assert next.conns[cid := Drained(c)] == r.conns[cid := Drained(c)];
    }
  }

  lemma DrainedLater(c: ConnState)
    requires c.serving && c.queue != []
    ensures Drained(ConnState(c.target, c.queue[1..], c.passed + [Passed(c.queue[0], true)], true)) == Drained(c)
  {
    assert AllPassed(c.queue) == [Passed(c.queue[0], true)] + AllPassed(c.queue[1..]);
    assert c.passed + [Passed(c.queue[0], true)] + AllPassed(c.queue[1..]) == c.passed + AllPassed(c.queue);
  }

  lemma {:induction false} DrainEach(r: Receiver, cids: set<ConnID>, salt: u32) returns (es: Events)
    requires cids <= r.conns.Keys
    ensures RunAll(r, es, salt) == r.(conns := DrainedAt(r.conns, cids))
    decreases |cids|
  {
    if cids == {} {
      es := [];
      assert DrainedAt(r.conns, cids) == r.conns;
    } else {
      var cid :| cid in cids;
      var first := DrainOne(r, cid, salt);
      var mid := RunAll(r, first, salt);
      var rest := DrainEach(mid, cids - {cid}, salt);
      es := first + rest;
      RunAppended(r, first, rest, salt);
      assert DrainedAt(mid.conns, cids - {cid}) == DrainedAt(r.conns, cids);
    }
  }

  /** No queue that is served holds anything. */
  ghost predicate NoneWaiting(t: Conns) {
    forall cid :: cid in t && t[cid].serving ==> t[cid].queue == []
  }

  lemma DrainedReached(t: Conns, cid: ConnID)
    ensures Reached(DrainedAt(t, t.Keys), cid) == Reached(t, cid)
  {
    if cid in t {
      var c := t[cid];
      PayloadsOfBoth(c.passed, AllPassed(c.queue));
      assert PayloadsOf(AllPassed(c.queue)) == c.queue;
      assert PayloadsOf(c.passed) + c.queue + [] == PayloadsOf(c.passed) + c.queue;
    }
  }

  /** All those queues can be emptied, and that undoes no progress. */
  lemma DrainAll(r: Receiver, ss: seq<Sent>, n: nat, salt: u32) returns (es: Events)
    requires AllSendable(ss, salt) && n <= |ss| && Progress(r, ss, n, salt)
    ensures var r' := RunAll(r, es, salt);
            && Progress(r', ss, n, salt) && NoneWaiting(r'.conns)
            && r'.conns == DrainedAt(r.conns, r.conns.Keys)
  {
    es := DrainEach(r, r.conns.Keys, salt);
    forall cid
      ensures Matches(DrainedAt(r.conns, r.conns.Keys), ss, n, cid)
    {
      assert Matches(r.conns, ss, n, cid);
      DrainedReached(r.conns, cid);
    }
  }

  /* ---- room ---- */

  /** Every connection that nobody serves can hold all that is still to come for it. */
  ghost predicate Room(t: Conns, ss: seq<Sent>) {
    forall cid :: cid in t && !t[cid].serving ==> |Payloads(ss, |ss|, cid)| <= |t[cid].passed| + CAPACITY
  }

  lemma {:induction false} PayloadsGrow(ss: seq<Sent>, n: nat, m: nat, cid: ConnID)
    requires n <= m <= |ss|
    ensures Payloads(ss, n, cid) <= Payloads(ss, m, cid)
    decreases m
  {
    if n < m {
      PayloadsGrow(ss, n, m - 1, cid);
    }
  }

  /** Then the next packet need not wait. */
  lemma NextFits(t: Conns, ss: seq<Sent>, n: nat)
    requires n < |ss| && ss[n].body.Data? && Room(t, ss) && NoneWaiting(t)
    requires Matches(t, ss, n, ss[n].cid)
    ensures !Full(t, ss[n].cid)
  {
    var cid := ss[n].cid;
    if cid in t && !t[cid].serving {
      assert Payloads(ss, n + 1, cid) == Payloads(ss, n, cid) + [ss[n].body.payload];
      PayloadsGrow(ss, n + 1, |ss|, cid);
      assert |Reached(t, cid)| == |t[cid].passed| + |t[cid].queue|;
    }
  }

  /** Reading the next packet, then, leaves room for the rest. */
  lemma ReadWithRoom(r: Receiver, ss: seq<Sent>, n: nat, salt: u32)
    requires AllSendable(ss, salt) && n < |ss| && Progress(r, ss, n, salt)
    requires Room(r.conns, ss) && NoneWaiting(r.conns)
    ensures var r' := RunAll(r, [ReadFrame], salt);
            Progress(r', ss, n + 1, salt) && Room(r'.conns, ss)
  {
    assert Matches(r.conns, ss, n, ss[n].cid);
    if ss[n].body.Data? {
      NextFits(r.conns, ss, n);
    }
    var n' := ReadProgress(r, ss, n, salt);
    RunOne(r, ReadFrame, salt);
    ReadKeepsServing(r, salt);
  }

  /** Reading makes nobody stop serving, and passes nothing on. */
  lemma ReadKeepsServing(r: Receiver, salt: u32)
    ensures KeepsServing(r.conns, Proceed(r, ReadFrame, salt).conns)
  {
    if r.held.Held? {
      DispatchKeepsServing(r.conns, r.held.packet);
    } else if NextPacket(r.rest, salt).0.Packet? {
      DispatchKeepsServing(r.conns, NextPacket(r.rest, salt).0.packet);
    }
  }

  ghost predicate KeepsServing(t: Conns, t': Conns) {
    forall cid :: cid in t' && !t'[cid].serving ==> cid in t && !t[cid].serving && t'[cid].passed == t[cid].passed
  }

  lemma DispatchKeepsServing(t: Conns, p: Incoming)
    ensures KeepsServing(t, DispatchOn(t, p).0)
  {
  }

  lemma DrainKeepsRoom(t: Conns, t': Conns, ss: seq<Sent>)
    requires Room(t, ss) && t' == DrainedAt(t, t.Keys)
    ensures Room(t', ss)
  {
  }

  lemma {:induction false} Finish(r: Receiver, ss: seq<Sent>, n: nat, salt: u32) returns (es: Events)
    requires AllSendable(ss, salt) && n <= |ss| && Progress(r, ss, n, salt) && Room(r.conns, ss)
    ensures var r' := RunAll(r, es, salt);
            Progress(r', ss, |ss|, salt) && NoneWaiting(r'.conns)
    decreases |ss| - n
  {
    if n == |ss| {
      es := DrainAll(r, ss, n, salt);
    } else {
      var first := Advance(r, ss, n, salt);
      var more := Finish(RunAll(r, first, salt), ss, n + 1, salt);
      es := first + more;
      RunAppended(r, first, more, salt);
    }
  }

  /** Empty the queues, and read a packet. */
  lemma Advance(r: Receiver, ss: seq<Sent>, n: nat, salt: u32) returns (es: Events)
    requires AllSendable(ss, salt) && n < |ss| && Progress(r, ss, n, salt) && Room(r.conns, ss)
    ensures var r' := RunAll(r, es, salt);
            Progress(r', ss, n + 1, salt) && Room(r'.conns, ss)
  {
    var drain := DrainAll(r, ss, n, salt);
    DrainKeepsRoom(r.conns, RunAll(r, drain, salt).conns, ss);
    ReadWithRoom(RunAll(r, drain, salt), ss, n, salt);
    es := drain + [ReadFrame];
    RunAppended(r, drain, [ReadFrame], salt);
  }

  /* ---- the theorem ---- */

  function Start(ss: seq<Sent>, salt: u32): Receiver
    requires AllSendable(ss, salt)
  {
    Receiver(map[], Stream(ss, salt), Nothing)
  }

  /** After es, `more` reads all that was sent and empties every queue that is still served. */
  ghost predicate Completes(ss: seq<Sent>, es: Events, more: Events, salt: u32)
    requires AllSendable(ss, salt)
  {
    var r := RunAll(Start(ss, salt), es + more, salt);
    r.rest == [] && r.held == Nothing && NoneWaiting(r.conns)
  }

  /** From any state that can be reached, there is a way on that delivers all that was sent exactly
      when no abandoned connection is sent more than it has passed on and its queue can hold. */
  lemma CanFinish(ss: seq<Sent>, es: Events, salt: u32)
    requires AllSendable(ss, salt)
    ensures (exists more :: Completes(ss, es, more, salt)) <==> Room(RunAll(Start(ss, salt), es, salt).conns, ss)
  {
    var r := RunAll(Start(ss, salt), es, salt);
    if Room(r.conns, ss) {
      StartProgress(ss, salt);
      var n := RunProgress(Start(ss, salt), ss, 0, es, salt);
      var more := Finish(r, ss, n, salt);
      RunAppended(Start(ss, salt), es, more, salt);
      assert Completes(ss, es, more, salt);
    }
    if more :| Completes(ss, es, more, salt) {
      CompletedHadRoom(ss, es, more, salt);
    }
  }

  lemma CompletedHadRoom(ss: seq<Sent>, es: Events, more: Events, salt: u32)
    requires AllSendable(ss, salt) && Completes(ss, es, more, salt)
    ensures Room(RunAll(Start(ss, salt), es, salt).conns, ss)
  {
    var r, end := RunAll(Start(ss, salt), es, salt), RunAll(Start(ss, salt), es + more, salt);
    RunAppended(Start(ss, salt), es, more, salt);
    RunFollows(Start(ss, salt), es + more, salt);
    RunFollows(r, more, salt);
    var n := StreamIntegrity(ss, es + more, salt);
    forall cid | cid in r.conns && !r.conns[cid].serving
      ensures |Payloads(ss, |ss|, cid)| <= |r.conns[cid].passed| + CAPACITY
    {
      assert Matches(end.conns, ss, |ss|, cid);
      assert |Reached(end.conns, cid)| == |end.conns[cid].passed| + |end.conns[cid].queue|;
    }
  }
}
