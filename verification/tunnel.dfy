/** The server side of a tunnel: packets are handed to connections by id, through bounded queues. */
module Tunnel {
  import opened Bytes
  import opened ProxyPacket
  import opened ProxyControl
  import opened W = WsokFrame

  const CAPACITY := 64

  /* ---- the dispatcher as a step function ---- */

  /** A payload handed to the target's connection, and whether writing it succeeded. */
  datatype Passed = Passed(payload: bytes, ok: bool)

  /** queue: payloads waiting in the connection's channel. passed: payloads taken from it, in order.
      serving: something still takes from it. */
  datatype ConnState = ConnState(target: Target, queue: seq<bytes>, passed: seq<Passed>, serving: bool)

  type Conns = map<ConnID, ConnState>

  datatype Reason =
    | AlreadyConnected | UnknownConnection | UnexpectedType
    | BadHello(hello: HelloError) | BadPacket(packet: ProxyPacket.Error)

  datatype Step =
    | Handled
    | Rejected(reason: Reason)
    // the channel is full: the sender waits, holding the packet
    | Waiting
    // the IPv6 stub
    | Crashed
    | Ended(error: W.Error)
    // nothing in the channel to take, or nobody to take it
    | Idle

  /** A decoded packet, as the dispatcher sees it. */
  datatype Incoming = Incoming(cid: ConnID, kind: byte, data: bytes)

  function DispatchOn(t: Conns, p: Incoming): (Conns, Step) {
    if p.kind == PACKET_HELLO then
      if p.cid in t then (t, Rejected(AlreadyConnected))
      else
        (match HelloDecode(p.data)
         case HelloFail(e) => (t, Rejected(BadHello(e)))
         case HelloPanic => (t, Crashed)
         case HelloOk(target) => (t[p.cid := ConnState(target, [], [], true)], Handled))
    else if p.kind == PACKET_DATA then
      if p.cid !in t then (t, Rejected(UnknownConnection))
      else
        var c := t[p.cid];
        if |c.queue| >= CAPACITY then (t, Waiting)
        else (t[p.cid := c.(queue := c.queue + [p.data])], Handled)
    else if p.kind == PACKET_CLOSE then
      if p.cid !in t then (t, Rejected(UnknownConnection)) else (t, Handled)
    else (t, Rejected(UnexpectedType))
  }

  /** What comes of writing to the target. After TargetClosed nothing more is taken. */
  datatype Outcome = Written | WriteFailed | TargetClosed

  function Consume(t: Conns, cid: ConnID, w: Outcome): (Conns, Step) {
    if cid !in t || !t[cid].serving || t[cid].queue == [] then (t, Idle)
    else
      var c := t[cid];
      (t[cid := ConnState(c.target, c.queue[1..], c.passed + [Passed(c.queue[0], w == Written)], w != TargetClosed)],
       Handled)
  }

  /** The target could not be dialled, or the connection is done. */
  function Abandon(t: Conns, cid: ConnID): (Conns, Step) {
    if cid !in t then (t, Idle) else (t[cid := t[cid].(serving := false)], Handled)
  }

  /* ---- whole runs ---- */

  datatype Event = Deliver(packet: Incoming) | Take(cid: ConnID, outcome: Outcome) | Stop(stopped: ConnID)

  function Apply(t: Conns, e: Event): (Conns, Step) {
    match e
    case Deliver(p) => DispatchOn(t, p)
    case Take(cid, w) => Consume(t, cid, w)
    case Stop(cid) => Abandon(t, cid)
  }

  function Run(t: Conns, es: seq<Event>): Conns
    decreases |es|
  {
    if es == [] then t else Run(Apply(t, es[0]).0, es[1..])
  }

  /** The event hands a payload to this connection. */
  predicate TakesIn(t: Conns, e: Event, cid: ConnID) {
    e.Deliver? && e.packet.kind == PACKET_DATA && e.packet.cid == cid && DispatchOn(t, e.packet).1 == Handled
  }

  /** The event opens this connection. */
  predicate Opens(t: Conns, e: Event, cid: ConnID) {
    e.Deliver? && e.packet.kind == PACKET_HELLO && e.packet.cid == cid && DispatchOn(t, e.packet).1 == Handled
  }

  /** The payloads accepted for a connection over a run, in the order they arrived. */
  function TakenIn(t: Conns, es: seq<Event>, cid: ConnID): seq<bytes>
    decreases |es|
  {
    if es == [] then []
    else (if TakesIn(t, es[0], cid) then [es[0].packet.data] else []) + TakenIn(Apply(t, es[0]).0, es[1..], cid)
  }

  function Openings(t: Conns, es: seq<Event>, cid: ConnID): nat
    decreases |es|
  {
    if es == [] then 0
    else (if Opens(t, es[0], cid) then 1 else 0) + Openings(Apply(t, es[0]).0, es[1..], cid)
  }

  ghost predicate Bounded(t: Conns) {
    forall cid :: cid in t ==> |t[cid].queue| <= CAPACITY
  }

  function PayloadsOf(ps: seq<Passed>): seq<bytes> {
    seq(|ps|, i requires 0 <= i < |ps| => ps[i].payload)
  }

  lemma PayloadsOfBoth(a: seq<Passed>, b: seq<Passed>)
    ensures PayloadsOf(a + b) == PayloadsOf(a) + PayloadsOf(b)
  {
  }

  function OksOf(ps: seq<Passed>): seq<bool> {
    seq(|ps|, i requires 0 <= i < |ps| => ps[i].ok)
  }

  lemma OksOfBoth(ps: seq<Passed>, p: Passed)
    ensures OksOf(ps + [p]) == OksOf(ps) + [p.ok]
  {
  }

  /** The event passes the oldest payload of this connection on. */
  predicate PassesOn(t: Conns, e: Event, cid: ConnID) {
    e.Take? && e.cid == cid && Apply(t, e).1 == Handled
  }

  /** What comes of the writes to a connection's target over a run: whether each succeeded. */
  function WritesOf(t: Conns, es: seq<Event>, cid: ConnID): seq<bool>
    decreases |es|
  {
    if es == [] then []
    else (if PassesOn(t, es[0], cid) then [es[0].outcome == Written] else []) + WritesOf(Apply(t, es[0]).0, es[1..], cid)
  }

  function OksAt(t: Conns, cid: ConnID): seq<bool> {
    if cid in t then OksOf(t[cid].passed) else []
  }

  /** The event ends the serving of this connection: it is abandoned, or its target is closed. */
  predicate Ends(t: Conns, e: Event, cid: ConnID) {
    e == Stop(cid) || (PassesOn(t, e, cid) && e.outcome == TargetClosed)
  }

  // What has reached a connection: passed on, then waiting.
  function Reached(t: Conns, cid: ConnID): seq<bytes> {
    if cid in t then PayloadsOf(t[cid].passed) + t[cid].queue else []
  }

  /** What stays of a connection: its target, what it has passed on, and that it is abandoned. */
  ghost predicate Lasts(c: ConnState, c': ConnState) {
    && c'.target == c.target && c.passed <= c'.passed
    && (!c.serving ==> !c'.serving && c'.passed == c.passed)
  }

  /** One event on one connection: it lasts, and what has reached it grows by exactly the payload
      it takes in. */
  lemma StepOnOne(t: Conns, e: Event, cid: ConnID)
    ensures var t' := Apply(t, e).0;
            && (cid in t ==> cid in t' && Lasts(t[cid], t'[cid]))
            && (cid in t' && cid !in t ==> Opens(t, e, cid) && t'[cid].passed == [] && t'[cid].queue == [])
            && (Opens(t, e, cid) ==> cid !in t && cid in t')
            && Reached(t', cid) == Reached(t, cid) + (if TakesIn(t, e, cid) then [e.packet.data] else [])
  {
    match e
    case Deliver(p) =>
      if p.kind == PACKET_DATA && p.cid == cid && cid in t {
        var c := t[cid];
        assert PayloadsOf(c.passed) + (c.queue + [p.data]) == PayloadsOf(c.passed) + c.queue + [p.data];
      }
    case Take(taken, w) =>
      if taken == cid && cid in t && t[cid].serving && t[cid].queue != [] {
        var c := t[cid];
        PayloadsOfBoth(c.passed, [Passed(c.queue[0], w == Written)]);
        assert (PayloadsOf(c.passed) + [c.queue[0]]) + c.queue[1..] == PayloadsOf(c.passed) + c.queue;
      }
    case Stop(_) =>
  }

  /** The other end of a connection in one step: a turn of its loop passes on exactly when it is
      served and something waits; whether the write succeeded is kept; and it is served until an
      event ends that. */
  lemma StepOtherEnd(t: Conns, e: Event, cid: ConnID)
    ensures var t' := Apply(t, e).0;
            && (e.Take? && e.cid == cid ==> (PassesOn(t, e, cid) <==> cid in t && t[cid].serving && t[cid].queue != []))
            && OksAt(t', cid) == OksAt(t, cid) + (if PassesOn(t, e, cid) then [e.outcome == Written] else [])
            && (cid in t && t[cid].serving ==> cid in t' && (t'[cid].serving <==> !Ends(t, e, cid)))
            && (cid in t' && cid !in t ==> t'[cid].serving)
  {
    StepOks(t, e, cid);
    StepServes(t, e, cid);
  }

  lemma StepOks(t: Conns, e: Event, cid: ConnID)
    ensures OksAt(Apply(t, e).0, cid) == OksAt(t, cid) + (if PassesOn(t, e, cid) then [e.outcome == Written] else [])
  {
    if PassesOn(t, e, cid) {
      OksOfBoth(t[cid].passed, Passed(t[cid].queue[0], e.outcome == Written));
    } else {
      StepPassesNone(t, e, cid);
      assert OksAt(t, cid) + [] == OksAt(t, cid);
    }
  }

  lemma StepPassesNone(t: Conns, e: Event, cid: ConnID)
    requires !PassesOn(t, e, cid)
    ensures OksAt(Apply(t, e).0, cid) == OksAt(t, cid)
  {
    match e
    case Deliver(_) =>
    case Take(_, _) =>
    case Stop(_) =>
  }

  lemma StepServes(t: Conns, e: Event, cid: ConnID)
    ensures var t' := Apply(t, e).0;
            && (cid in t && t[cid].serving ==> cid in t' && (t'[cid].serving <==> !Ends(t, e, cid)))
            && (cid in t' && cid !in t ==> t'[cid].serving)
  {
    match e
    case Deliver(_) =>
    case Take(_, _) =>
    case Stop(_) =>
  }

  lemma StepBounded(t: Conns, e: Event)
    requires Bounded(t)
    ensures Bounded(Apply(t, e).0)
  {
  }

  /** Over any run: queues stay within their capacity; a connection, once open, stays open with
      the same target; it is opened at most once, and never if it was open; and what it has passed
      on and what waits are together exactly the payloads accepted for it, in order. */
  lemma {:induction false} RunConserves(t: Conns, es: seq<Event>, cid: ConnID)
    requires Bounded(t)
    ensures var t' := Run(t, es);
            && Bounded(t')
            && (cid in t ==> cid in t' && Lasts(t[cid], t'[cid]))
            && Openings(t, es, cid) == (if cid in t' && cid !in t then 1 else 0)
            && Reached(t', cid) == Reached(t, cid) + TakenIn(t, es, cid)
    decreases |es|
  {
    if es == [] {
      assert Reached(t, cid) + [] == Reached(t, cid);
    } else {
      var u := Apply(t, es[0]).0;
      StepOnOne(t, es[0], cid);
      StepBounded(t, es[0]);
      RunConserves(u, es[1..], cid);
      RunStep(t, es, cid);
    }
  }

  lemma RunStep(t: Conns, es: seq<Event>, cid: ConnID)
    requires es != []
    ensures var u := Apply(t, es[0]).0;
            var first: seq<bytes> := if TakesIn(t, es[0], cid) then [es[0].packet.data] else [];
            && Run(t, es) == Run(u, es[1..])
            && Reached(t, cid) + TakenIn(t, es, cid) == Reached(t, cid) + first + TakenIn(u, es[1..], cid)
            && Openings(t, es, cid) == (if Opens(t, es[0], cid) then 1 else 0) + Openings(u, es[1..], cid)
  {
  }

  /** Over any run: the writes that succeeded are those the run says; and a connection that is served
      goes on being served exactly until some event ends that. */
  lemma {:induction false} RunOtherEnd(t: Conns, es: seq<Event>, cid: ConnID)
    ensures OksAt(Run(t, es), cid) == OksAt(t, cid) + WritesOf(t, es, cid)
    decreases |es|
  {
    if es == [] {
      assert OksAt(t, cid) + [] == OksAt(t, cid);
    } else {
      StepOtherEnd(t, es[0], cid);
      RunOtherEnd(Apply(t, es[0]).0, es[1..], cid);
      WritesStep(t, es, cid, OksAt(t, cid));
    }
  }

  lemma WritesStep(t: Conns, es: seq<Event>, cid: ConnID, before: seq<bool>)
    requires es != []
    ensures var first := if PassesOn(t, es[0], cid) then [es[0].outcome == Written] else [];
            before + WritesOf(t, es, cid) == before + first + WritesOf(Apply(t, es[0]).0, es[1..], cid)
  {
  }

  lemma {:induction false} ServedUntilEnded(t: Conns, es: seq<Event>, cid: ConnID)
    requires cid in t && t[cid].serving
    ensures var t' := Run(t, es);
            cid in t' && (t'[cid].serving <==> forall k :: 0 <= k < |es| ==> !Ends(Run(t, es[..k]), es[k], cid))
    decreases |es|
  {
    if es != [] {
      var u, rest := Apply(t, es[0]).0, es[1..];
      StepOtherEnd(t, es[0], cid);
      assert Run(t, es[..0]) == t;
      forall k | 0 <= k < |rest|
        ensures Run(t, es[..k + 1]) == Run(u, rest[..k]) && es[k + 1] == rest[k]
      {
        assert es[..k + 1][1..] == rest[..k];
      }
      if u[cid].serving {
        ServedUntilEnded(u, rest, cid);
        assert forall k :: 0 < k < |es| ==> es[k] == rest[k - 1] && Run(t, es[..k]) == Run(u, rest[..k - 1]);
      } else {
        AbandonedStays(u, rest, cid);
      }
    }
  }

  /** What is abandoned passes nothing on any more. */
  lemma {:induction false} AbandonedStays(t: Conns, es: seq<Event>, cid: ConnID)
    requires cid in t && !t[cid].serving
    ensures var t' := Run(t, es); cid in t' && !t'[cid].serving && t'[cid].passed == t[cid].passed
    decreases |es|
  {
    if es != [] {
      StepOnOne(t, es[0], cid);
      AbandonedStays(Apply(t, es[0]).0, es[1..], cid);
    }
  }

  /** Stopping a connection is for good. */
  lemma StoppedStays(t: Conns, es: seq<Event>, cid: ConnID)
    requires cid in t
    ensures var t' := Run(Apply(t, Stop(cid)).0, es);
            cid in t' && !t'[cid].serving && t'[cid].passed == t[cid].passed
  {
    AbandonedStays(Apply(t, Stop(cid)).0, es, cid);
  }

  /** n times the same Data packet. */
  function Flood(p: Incoming, n: nat): seq<Event> {
    seq(n, _ => Deliver(p))
  }

  /** An empty queue takes 64 packets; the next has to wait. */
  lemma {:induction false} HoldsSixtyFour(t: Conns, p: Incoming, n: nat)
    requires p.kind == 3 && p.cid in t && n <= 64 - |t[p.cid].queue|
    ensures var t' := Run(t, Flood(p, n));
            && p.cid in t' && |t'[p.cid].queue| == |t[p.cid].queue| + n
            && (DispatchOn(t', p).1 == Waiting <==> |t[p.cid].queue| + n == 64)
    decreases n
  {
    if n > 0 {
      var u := Apply(t, Deliver(p)).0;
      assert Flood(p, n)[1..] == Flood(p, n - 1);
      HoldsSixtyFour(u, p, n - 1);
    }
  }

  // How many payloads a connection has passed on.
  function PassedOn(t: Conns, cid: ConnID): nat {
    if cid in t then |t[cid].passed| else 0
  }

  /** After any run from the start, a packet has to wait exactly when it is a Data packet for an
      open connection with as many accepted payloads not passed on as its queue holds. */
  lemma WaitsExactlyWhenFull(es: seq<Event>, p: Incoming)
    ensures var t := Run(map[], es);
            DispatchOn(t, p).1 == Waiting <==>
            && p.kind == PACKET_DATA
            && Openings(map[], es, p.cid) == 1
            && |TakenIn(map[], es, p.cid)| - PassedOn(t, p.cid) == CAPACITY
  {
    RunConserves(map[], es, p.cid);
  }

  /* ---- reading the stream ---- */

  datatype Held = Nothing | Held(packet: Incoming)

  /** rest: bytes not yet read from the client. held: a packet whose channel was full. */
  datatype Receiver = Receiver(conns: Conns, rest: bytes, held: Held)

  function HandOverTo(r: Receiver, p: Incoming): (Receiver, Step) {
    var (t, step) := DispatchOn(r.conns, p);
    (Receiver(t, r.rest, if step == Waiting then Held(p) else Nothing), step)
  }

  /** What the next frame of a stream holds. */
  datatype Next = Packet(packet: Incoming) | NoPacket(step: Step)

  /** Reads one frame; also gives what is left to read. */
  function NextPacket(rest: bytes, salt: u32): (Next, bytes) {
    match FrameDecode(rest)
    case FrameFail(e) => (NoPacket(Ended(e)), [])
    case FrameOk(frame, next) =>
      FrameStable(rest, []);
      match PacketDecode(salt, frame.data)
      case Bad(e) => (NoPacket(Rejected(BadPacket(e))), rest[next..])
      case Good(cid, data, kind) => (Next.Packet(Incoming(cid, kind, data)), rest[next..])
  }

  /** A frame that is no packet is rejected, and nothing but the frame is lost. */
  lemma BrokenFrame(conns: Conns, f: Frame, rest: bytes, salt: u32, e: ProxyPacket.Error)
    requires |f.data| < WORD64 && PacketDecode(salt, f.data) == Bad(e)
    ensures Receive(Receiver(conns, FrameBytes(f) + rest, Nothing), salt) ==
            (Receiver(conns, rest, Nothing), Rejected(BadPacket(e)))
  {
    FrameRoundTrip(f, rest);
    assert (FrameBytes(f) + rest)[|FrameBytes(f)|..] == rest;
  }

  /** A stream that stops within a frame ends with the error of where it stops. */
  lemma CutStream(conns: Conns, f: Frame, k: nat, salt: u32)
    requires |f.data| < WORD64 && k < |FrameBytes(f)|
    ensures Receive(Receiver(conns, FrameBytes(f)[..k], Nothing), salt) ==
            (Receiver(conns, [], Nothing),
             Ended(if k == 0 then EndOfStream
                   else if k == 1 then ShortHeader
                   else if k < 2 + HeaderRest(f) then if k == 2 then EndOfStream else ShortHeader
                   else if k == 2 + HeaderRest(f) then EndOfStream
                   else UnexpectedEnd))
  {
    PrefixError(f, k);
  }

  /** The IPv6 stub brings the server down on the Hello of an unknown connection. */
  lemma StubCrashes(t: Conns, p: Incoming)
    requires p.kind == 1 && p.cid !in t && |p.data| >= 12 && p.data[0] % 4 < 2 && p.data[1] % 4 == 1
    ensures DispatchOn(t, p) == (t, Crashed)
  {
    HelloErrors(p.data);
  }

  /** The next frame, or another attempt at the packet that is held. */
  function Receive(r: Receiver, salt: u32): (Receiver, Step) {
    if r.held.Held? then HandOverTo(r, r.held.packet)
    else
      var (next, rest) := NextPacket(r.rest, salt);
      var after := r.(rest := rest);
      if next.NoPacket? then (after, next.step) else HandOverTo(after, next.packet)
  }

  /* ---- the tunnel ---- */

  class Conn {
    const cid: ConnID
    const target: Target
    var queue: seq<bytes>
    var passed: seq<Passed>
    var serving: bool

    constructor (cid: ConnID, target: Target)
      ensures this.cid == cid && View() == ConnState(target, [], [], true)
    {
      this.cid := cid;
      this.target := target;
      queue, passed, serving := [], [], true;
    }

    function View(): ConnState
      reads this
    {
      ConnState(target, queue, passed, serving)
    }

    /** One turn of the loop that serves incoming packets: the oldest is written to the target. A
        failed write is logged and its payload lost; a closed target ends the loop. */
    method ServeOne(w: Outcome)
      requires queue != [] && serving
      modifies this
      ensures View() == ConnState(target, old(queue)[1..], old(passed) + [Passed(old(queue)[0], w == Written)],
                                  w != TargetClosed)
    {
      var packet := queue[0];
      queue := queue[1..];
      passed := passed + [Passed(packet, w == Written)];
      if w == TargetClosed {
        serving := false;
      }
    }

    method Finish()
      modifies this
      ensures View() == old(View()).(serving := false)
    {
      serving := false;
    }
  }

  class Server {
    var conns: map<ConnID, Conn>
    var held: Held

    constructor ()
      ensures Valid() && View() == map[] && held == Nothing
      ensures fresh(conns.Values)
    {
      conns := map[];
      held := Nothing;
    }

    /** Each connection is filed under its own id, so no two ids share one. */
    predicate Valid()
      reads this, conns.Values
    {
      forall k :: k in conns ==> conns[k].cid == k
    }

    function View(): Conns
      reads this, conns.Values
    {
      map k | k in conns :: conns[k].View()
    }

    method AddConn(c: Conn)
      requires Valid()
      modifies this
      ensures Valid() && held == old(held)
      ensures conns == old(conns)[c.cid := c]
      ensures View() == old(View())[c.cid := c.View()]
    {
      conns := conns[c.cid := c];
    }

    method Dispatch(p: Incoming) returns (step: Step)
      requires Valid()
      modifies this, conns.Values
      ensures Valid() && held == old(held)
      ensures fresh(conns.Values - old(conns.Values))
      ensures (View(), step) == DispatchOn(old(View()), p)
    {
      var known := p.cid in conns;
      if p.kind == PACKET_HELLO {
        if known {
          return Rejected(AlreadyConnected);
        }
        var h := new Hello();
        var hello := DecodeHello(h, p.data);
        if hello.HelloPanic? {
          return Crashed;
        }
        if hello.HelloFail? {
          return Rejected(BadHello(hello.error));
        }
        var c := new Conn(p.cid, h.View());
        AddConn(c);
        return Handled;
      }
      if p.kind == PACKET_DATA {
        if !known {
          return Rejected(UnknownConnection);
        }
        var c := conns[p.cid];
        if |c.queue| >= CAPACITY {
          return Waiting;
        }
        c.queue := c.queue + [p.data];
        assert View() == old(View())[p.cid := c.View()];
        return Handled;
      }
      if p.kind == PACKET_CLOSE {
        return if known then Handled else Rejected(UnknownConnection);
      }
      return Rejected(UnexpectedType);
    }

    /** A turn of the connection's own loop. */
    method TakeOne(cid: ConnID, w: Outcome) returns (step: Step)
      requires Valid()
      modifies this, conns.Values
      ensures Valid() && held == old(held) && conns == old(conns)
      ensures (View(), step) == Consume(old(View()), cid, w)
    {
      if cid !in conns || !conns[cid].serving || conns[cid].queue == [] {
        return Idle;
      }
      var c := conns[cid];
      c.ServeOne(w);
      assert View() == old(View())[cid := c.View()];
      return Handled;
    }

    /** The connection's loop does not start, or ends. */
    method StopOne(cid: ConnID) returns (step: Step)
      requires Valid()
      modifies this, conns.Values
      ensures Valid() && held == old(held) && conns == old(conns)
      ensures (View(), step) == Abandon(old(View()), cid)
    {
      if cid !in conns {
        return Idle;
      }
      var c := conns[cid];
      c.Finish();
      assert View() == old(View())[cid := c.View()];
      return Handled;
    }

    function State(r: Reader): Receiver
      reads this, conns.Values, r
    {
      Receiver(View(), r.rest, held)
    }

    /** A send to a full channel is made again at the next call, before anything is read. */
    method ReadNextFrame(r: Reader, salt: u32) returns (step: Step)
      requires Valid() && r.gives == []
      modifies this, conns.Values, r
      ensures Valid() && r.gives == []
      ensures (State(r), step) == Receive(old(State(r)), salt)
    {
      ghost var before := View();
      var p: Incoming;
      if held.Held? {
        p := held.packet;
      } else {
        var next := ReadPacket(r, salt);
        assert View() == before;
        if next.NoPacket? {
          return next.step;
        }
        p := next.packet;
      }
      step := HandOver(p);
    }

    method HandOver(p: Incoming) returns (step: Step)
      requires Valid()
      modifies this, conns.Values
      ensures Valid()
      ensures (View(), step) == DispatchOn(old(View()), p)
      ensures held == if step == Waiting then Held(p) else Nothing
    {
      step := Dispatch(p);
      ghost var after := View();
      held := if step == Waiting then Held(p) else Nothing;
      assert View() == after;
    }
  }

  method ReadPacket(r: Reader, salt: u32) returns (next: Next)
    requires r.gives == []
    modifies r
    ensures r.gives == []
    ensures (next, r.rest) == NextPacket(old(r.rest), salt)
  {
    var frame := W.Decode(r);
    if frame.FrameFail? {
      return NoPacket(Ended(frame.error));
    }
    var packet := new ProxyCodec.Packet();
    packet.InitDecode(salt);
    var decoded := ProxyCodec.Decode(packet, frame.frame.data);
    if decoded.Refused? {
      return NoPacket(Rejected(BadPacket(decoded.error)));
    }
    return Next.Packet(Incoming(packet.cid, packet.kind, packet.data));
  }
}
