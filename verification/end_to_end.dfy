/** From the client's packets to the targets' connections: encoding, framing, one byte stream,
    unframing, decoding and dispatch, under any schedule of the reader and the connections. */
module EndToEnd {
  import opened Bytes
  import opened ProxyPacket
  import opened ProxyImage
  import opened ProxyWire
  import opened ProxyControl
  import opened WsokFrame
  import opened Tunnel

  /** What still fits, as an encoded packet, in the 64-bit length of a frame. */
  const MAX_PAYLOAD := WORD64 - 61

  datatype Body =
    | Hello(target: Target, helloJunk: bytes)
    | Data(payload: bytes)
    | Close(code: u32, closeJunk: bytes)
    // a ping, or junk of any type
    | Other(kind: byte, noise: bytes)
    // a Hello that cannot be decoded
    | BadHello(hello: bytes, flaw: HelloError)
    // a frame that is no packet
    | Broken(raw: bytes, fault: ProxyPacket.Error)

  /** A packet the client sends, with all the random choices made for it. The frame around it is
      `shell` with the packet's bytes as data. */
  datatype Sent = Sent(cid: ConnID, body: Body, junk1: bytes, junk2: bytes, style: byte, shell: Frame)

  predicate Sendable(s: Sent, salt: u32) {
    && Formed(s)
    && (s.body.Broken? ==> PacketDecode(salt, s.body.raw) == Bad(s.body.fault))
  }

  predicate Formed(s: Sent) {
    && |s.junk1| == 24 && |s.junk2| == 16 && s.style <= 1
    && match s.body
       case Hello(t, junk) => |junk| == 8 && t.network <= NETWORK_UDP
       case Data(payload) => |payload| <= MAX_PAYLOAD
       case Close(_, junk) => |junk| == 4
       case Other(kind, noise) => (kind == PACKET_PING || PACKET_JUNK <= kind < 16) && |noise| <= MAX_PAYLOAD
       case BadHello(hello, flaw) => HelloDecode(hello) == HelloFail(flaw) && |hello| <= MAX_PAYLOAD
       case Broken(raw, _) => |raw| < WORD64
  }

  predicate IsPacket(s: Sent) {
    Formed(s) && !s.body.Broken?
  }

  function KindOf(b: Body): byte {
    match b
    case Hello(_, _) => PACKET_HELLO
    case Data(_) => PACKET_DATA
    case Close(_, _) => PACKET_CLOSE
    case Other(kind, _) => kind
    case BadHello(_, _) => PACKET_HELLO
    case Broken(_, _) => PACKET_JUNK
  }

  function DataOf(s: Sent): bytes
    requires Formed(s)
  {
    match s.body
    case Hello(t, junk) => HelloBytes(t, junk)
    case Data(payload) => payload
    case Close(code, junk) => CloseBytes(code, junk)
    case Other(_, noise) => noise
    case BadHello(hello, _) => hello
    case Broken(raw, _) => raw
  }

  function IncomingOf(s: Sent): Incoming
    requires Formed(s)
  {
    Incoming(s.cid, Collapse(KindOf(s.body)), DataOf(s))
  }

  function PacketOf(s: Sent, salt: u32): (p: Pkt)
    requires IsPacket(s)
    ensures Encodable(p) && |p.data| <= MAX_PAYLOAD
  {
    Pkt(DataOf(s), s.cid, s.junk1, s.junk2, salt, KindOf(s.body), s.style)
  }

  function FrameOf(s: Sent, salt: u32): (f: Frame)
    requires Formed(s)
    ensures |f.data| < WORD64
  {
    if s.body.Broken? then s.shell.(data := s.body.raw)
    else
      WireLaidOut(PacketOf(s, salt));
      s.shell.(data := Wire(PacketOf(s, salt)))
  }

  /** The type number on the wire: 1 for a Hello, 3 for Data, 2 for a Close. */
  lemma SentTypes(s: Sent, salt: u32)
    requires IsPacket(s)
    ensures var w, n := FrameOf(s, salt).data, ClosedHash(salt, s.junk1[..8]) % 8;
            && 14 + n < |w|
            && w[14 + n] % 16 == match s.body
                                 case Hello(_, _) => 1
                                 case BadHello(_, _) => 1
                                 case Close(_, _) => 2
                                 case Data(_) => 3
                                 case Other(kind, _) => kind
  {
    var p := PacketOf(s, salt);
    WireSpelled(p);
    TypeByteIs(p.kind, p.junk1[20]);
    AtByte(Wire(p), 14 + ClosedHash(salt, s.junk1[..8]) % 8, [Or8(p.kind, p.junk1[20] / 16 * 16)], 0);
  }

  predicate AllSendable(ss: seq<Sent>, salt: u32) {
    forall i :: 0 <= i < |ss| ==> Sendable(ss[i], salt)
  }

  /** The bytes on the wire. */
  function Stream(ss: seq<Sent>, salt: u32): bytes
    requires AllSendable(ss, salt)
    decreases |ss|
  {
    if ss == [] then [] else FrameBytes(FrameOf(ss[0], salt)) + Stream(ss[1..], salt)
  }

  /* ---- what the targets should see, from the packets alone ---- */

  datatype Greeting = NoGreeting | Greeting(target: Target)

  /** The first Hello for cid among the first n packets. */
  function Greeted(ss: seq<Sent>, n: nat, cid: ConnID): Greeting
    requires n <= |ss|
  {
    if n == 0 then NoGreeting
    else
      var before, s := Greeted(ss, n - 1, cid), ss[n - 1];
      if before.NoGreeting? && s.cid == cid && s.body.Hello? then Greeting(s.body.target) else before
  }

  /** The payloads of the Data packets for cid that follow its first Hello, among the first n. */
  function Payloads(ss: seq<Sent>, n: nat, cid: ConnID): seq<bytes>
    requires n <= |ss|
  {
    if n == 0 then []
    else
      var before, s := Payloads(ss, n - 1, cid), ss[n - 1];
      if s.cid == cid && s.body.Data? && Greeted(ss, n - 1, cid).Greeting? then before + [s.body.payload] else before
  }

  /** What reading packet n comes to, unless it has to wait. */
  function Verdict(ss: seq<Sent>, n: nat): Step
    requires n < |ss|
  {
    var s := ss[n];
    var known := Greeted(ss, n, s.cid).Greeting?;
    match s.body
    case Hello(_, _) => if known then Rejected(AlreadyConnected) else Handled
    case Data(_) => if known then Handled else Rejected(UnknownConnection)
    case Close(_, _) => if known then Handled else Rejected(UnknownConnection)
    case Other(_, _) => Rejected(UnexpectedType)
    case BadHello(_, flaw) => Rejected(if known then AlreadyConnected else Reason.BadHello(flaw))
    case Broken(_, fault) => Rejected(BadPacket(fault))
  }

  /** The connection's queue is full. */
  predicate Full(t: Conns, cid: ConnID) {
    cid in t && |t[cid].queue| >= CAPACITY
  }

  /* ---- the run ---- */

  datatype Event = ReadFrame | TakeOne(cid: ConnID, outcome: Outcome) | StopOne(stopped: ConnID)

  function Proceed(r: Receiver, e: Event, salt: u32): Receiver {
    match e
    case ReadFrame => Receive(r, salt).0
    case TakeOne(cid, w) => r.(conns := Consume(r.conns, cid, w).0)
    case StopOne(cid) => r.(conns := Abandon(r.conns, cid).0)
  }

  function RunAll(r: Receiver, es: seq<Event>, salt: u32): Receiver
    decreases |es|
  {
    if es == [] then r else RunAll(Proceed(r, es[0], salt), es[1..], salt)
  }

  /** A connection is as the first n packets make it. */
  ghost predicate Matches(t: Conns, ss: seq<Sent>, n: nat, cid: ConnID)
    requires n <= |ss|
  {
    && (cid in t <==> Greeted(ss, n, cid).Greeting?)
    && (cid in t ==> t[cid].target == Greeted(ss, n, cid).target)
    && Reached(t, cid) == Payloads(ss, n, cid)
  }

  /** The first n packets have been dispatched. The next may have been read and be held. */
  ghost predicate Progress(r: Receiver, ss: seq<Sent>, n: nat, salt: u32)
    requires AllSendable(ss, salt) && n <= |ss|
  {
    && (forall cid :: Matches(r.conns, ss, n, cid))
    && (if r.held.Nothing? then r.rest == Stream(ss[n..], salt)
        else n < |ss| && IsPacket(ss[n]) && r.held.packet == IncomingOf(ss[n]) && r.rest == Stream(ss[n + 1..], salt))
  }

  /** One frame of the stream carries one packet, or none, and nothing of the next. */
  lemma NextOfStream(ss: seq<Sent>, salt: u32)
    requires ss != [] && AllSendable(ss, salt)
    ensures NextPacket(Stream(ss, salt), salt) ==
            (if ss[0].body.Broken? then NoPacket(Rejected(BadPacket(ss[0].body.fault)))
             else Tunnel.Next.Packet(IncomingOf(ss[0])),
             Stream(ss[1..], salt))
  {
    var f, rest := FrameOf(ss[0], salt), Stream(ss[1..], salt);
    FrameRoundTrip(f, rest);
    if !ss[0].body.Broken? {
      DecodeOfWire(PacketOf(ss[0], salt));
    }
    assert (FrameBytes(f) + rest)[|FrameBytes(f)|..] == rest;
  }

  /** Dispatching packet n, unless it has to wait, takes every connection one packet further. */
  lemma DispatchMatches(t: Conns, ss: seq<Sent>, n: nat, cid: ConnID)
    requires n < |ss| && IsPacket(ss[n])
    requires Matches(t, ss, n, cid) && Matches(t, ss, n, ss[n].cid)
    ensures var (t', step) := DispatchOn(t, IncomingOf(ss[n]));
            if ss[n].body.Data? && Full(t, ss[n].cid) then step == Waiting && t' == t
            else step == Verdict(ss, n) && Matches(t', ss, n + 1, cid)
  {
    var s := ss[n];
    match s.body
    case Hello(target, junk) =>
      HelloRoundTrip(target, junk, []);
      assert HelloBytes(target, junk) + [] == HelloBytes(target, junk);
    case Data(payload) =>
      if s.cid in t {
        var c := t[s.cid];
        var passed := PayloadsOf(c.passed);
        assert passed + (c.queue + [payload]) == passed + c.queue + [payload];
      }
    case Close(_, _) =>
    case Other(_, _) =>
    case BadHello(_, _) =>
  }

  /** What goes on at the other end of a queue changes nothing of this. */
  lemma OtherEndMatches(t: Conns, ss: seq<Sent>, n: nat, e: Tunnel.Event, cid: ConnID)
    requires n <= |ss| && Matches(t, ss, n, cid) && !e.Deliver?
    ensures Matches(Apply(t, e).0, ss, n, cid)
  {
    StepOnOne(t, e, cid);
  }

  /** What reading does next, with n packets dispatched. */
  predicate Foretold(r: Receiver, ss: seq<Sent>, n: nat, step: Step)
    requires n <= |ss|
  {
    step ==
    if n == |ss| then Ended(EndOfStream)
    else if ss[n].body.Data? && Full(r.conns, ss[n].cid) then Waiting
    else Verdict(ss, n)
  }

  lemma HandOverProgress(r: Receiver, ss: seq<Sent>, n: nat, salt: u32) returns (n': nat)
    requires AllSendable(ss, salt) && n < |ss| && IsPacket(ss[n])
    requires forall cid :: Matches(r.conns, ss, n, cid)
    requires r.rest == Stream(ss[n + 1..], salt)
    ensures var (r', step) := HandOverTo(r, IncomingOf(ss[n]));
            && n' == (if step == Waiting then n else n + 1)
            && Progress(r', ss, n', salt) && Foretold(r, ss, n, step)
  {
    var (t', step) := DispatchOn(r.conns, IncomingOf(ss[n]));
    DispatchMatches(r.conns, ss, n, ss[n].cid);
    n' := if step == Waiting then n else n + 1;
    forall cid
      ensures Matches(t', ss, n', cid)
    {
      DispatchMatches(r.conns, ss, n, cid);
    }
    HandedOver(r, IncomingOf(ss[n]));
  }

  lemma HandedOver(r: Receiver, p: Incoming)
    ensures var (t', step) := DispatchOn(r.conns, p);
            HandOverTo(r, p) == (Receiver(t', r.rest, if step == Waiting then Held(p) else Nothing), step)
  {
  }

  lemma ReadProgress(r: Receiver, ss: seq<Sent>, n: nat, salt: u32) returns (n': nat)
    requires AllSendable(ss, salt) && n <= |ss| && Progress(r, ss, n, salt)
    ensures var (r', step) := Receive(r, salt);
            && n' == (if n == |ss| || step == Waiting then n else n + 1)
            && Progress(r', ss, n', salt) && Foretold(r, ss, n, step)
  {
    if r.held.Held? {
      n' := HandOverProgress(r, ss, n, salt);
    } else if n == |ss| {
      n' := n;
    } else {
      n' := NextProgress(r, ss, n, salt);
    }
  }

  lemma NextProgress(r: Receiver, ss: seq<Sent>, n: nat, salt: u32) returns (n': nat)
    requires AllSendable(ss, salt) && n < |ss| && Progress(r, ss, n, salt) && r.held.Nothing?
    ensures var (r', step) := Receive(r, salt);
            && n' == (if step == Waiting then n else n + 1)
            && Progress(r', ss, n', salt) && Foretold(r, ss, n, step)
  {
    var after := r.(rest := Stream(ss[n + 1..], salt));
    NextOfStream(ss[n..], salt);
    assert ss[n..][1..] == ss[n + 1..];
    if ss[n].body.Broken? {
      n' := n + 1;
      ReceivesNone(r, salt, Rejected(BadPacket(ss[n].body.fault)), after.rest);
      BrokenProgress(r, ss, n, salt);
    } else {
      ReceivesPacket(r, salt, IncomingOf(ss[n]), after.rest);
      n' := HandOverProgress(after, ss, n, salt);
      SameForetold(r, after, ss, n, HandOverTo(after, IncomingOf(ss[n])).1);
    }
  }

  lemma ReceivesNone(r: Receiver, salt: u32, step: Step, rest: bytes)
    requires r.held.Nothing? && NextPacket(r.rest, salt) == (NoPacket(step), rest)
    ensures Receive(r, salt) == (r.(rest := rest), step)
  {
  }

  lemma ReceivesPacket(r: Receiver, salt: u32, p: Incoming, rest: bytes)
    requires r.held.Nothing? && NextPacket(r.rest, salt) == (Tunnel.Next.Packet(p), rest)
    ensures Receive(r, salt) == HandOverTo(r.(rest := rest), p)
  {
  }

  lemma SameForetold(r: Receiver, r': Receiver, ss: seq<Sent>, n: nat, step: Step)
    requires n <= |ss| && r.conns == r'.conns
    ensures Foretold(r, ss, n, step) == Foretold(r', ss, n, step)
  {
  }

  /** A frame that is no packet touches no connection. */
  lemma BrokenMatches(t: Conns, ss: seq<Sent>, n: nat, cid: ConnID)
    requires n < |ss| && ss[n].body.Broken? && Matches(t, ss, n, cid)
    ensures Matches(t, ss, n + 1, cid)
  {
  }

  lemma BrokenProgress(r: Receiver, ss: seq<Sent>, n: nat, salt: u32)
    requires AllSendable(ss, salt) && n < |ss| && Progress(r, ss, n, salt)
    requires r.held.Nothing? && ss[n].body.Broken?
    ensures Progress(r.(rest := Stream(ss[n + 1..], salt)), ss, n + 1, salt)
  {
    var n' := n + 1;
    forall cid
      ensures Matches(r.conns, ss, n', cid)
    {
      BrokenMatches(r.conns, ss, n, cid);
    }
  }

  lemma OtherEndProgress(r: Receiver, ss: seq<Sent>, n: nat, e: Tunnel.Event, salt: u32)
    requires AllSendable(ss, salt) && n <= |ss| && Progress(r, ss, n, salt) && !e.Deliver?
    ensures Progress(r.(conns := Apply(r.conns, e).0), ss, n, salt)
  {
    forall cid
      ensures Matches(Apply(r.conns, e).0, ss, n, cid)
    {
      OtherEndMatches(r.conns, ss, n, e, cid);
    }
  }

  /** The end of the stream is met only once every packet has been read. */
  lemma StepProgress(r: Receiver, ss: seq<Sent>, n: nat, e: Event, salt: u32) returns (n': nat)
    requires AllSendable(ss, salt) && n <= |ss| && Progress(r, ss, n, salt)
    ensures n <= n' <= |ss| && Progress(Proceed(r, e, salt), ss, n', salt)
  {
    match e
    case TakeOne(taken, w) =>
      n' := n;
      OtherEndProgress(r, ss, n, Take(taken, w), salt);
    case StopOne(stopped) =>
      n' := n;
      OtherEndProgress(r, ss, n, Stop(stopped), salt);
    case ReadFrame =>
      n' := ReadProgress(r, ss, n, salt);
  }

  lemma {:induction false} RunProgress(r: Receiver, ss: seq<Sent>, n: nat, es: seq<Event>, salt: u32) returns (n': nat)
    requires AllSendable(ss, salt) && n <= |ss| && Progress(r, ss, n, salt)
    ensures n <= n' <= |ss| && Progress(RunAll(r, es, salt), ss, n', salt)
    decreases |es|
  {
    if es == [] {
      n' := n;
    } else {
      var m := StepProgress(r, ss, n, es[0], salt);
      n' := RunProgress(Proceed(r, es[0], salt), ss, m, es[1..], salt);
    }
  }

  lemma {:induction false} StreamNotEmpty(ss: seq<Sent>, salt: u32)
    requires AllSendable(ss, salt) && ss != []
    ensures Stream(ss, salt) != []
  {
    FrameRoundTrip(FrameOf(ss[0], salt), []);
  }

  lemma StartProgress(ss: seq<Sent>, salt: u32)
    requires AllSendable(ss, salt)
    ensures Progress(Receiver(map[], Stream(ss, salt), Nothing), ss, 0, salt)
  {
    assert ss[0..] == ss;
  }

  /** End-to-end integrity. Whatever is sent, and however reading and consuming interleave: at any
      moment some first n packets have had their effect, and every connection is exactly as they
      make it — open if they greet it, to the target of its first Hello, with the payloads of its
      Data packets after that, in order, passed on or waiting. The stream is read and nothing is
      held exactly when that is all of them. What the next read comes to is foretold as well. */
  lemma StreamIntegrity(ss: seq<Sent>, es: seq<Event>, salt: u32) returns (n: nat)
    requires AllSendable(ss, salt)
    ensures n <= |ss|
    ensures var r := RunAll(Receiver(map[], Stream(ss, salt), Nothing), es, salt);
            && (forall cid :: Matches(r.conns, ss, n, cid))
            && (r.rest == [] && r.held == Nothing <==> n == |ss|)
            && Foretold(r, ss, n, Receive(r, salt).1)
  {
    var r := Receiver(map[], Stream(ss, salt), Nothing);
    StartProgress(ss, salt);
    n := RunProgress(r, ss, 0, es, salt);
    if n < |ss| {
      StreamNotEmpty(ss[n..], salt);
    }
    var _ := ReadProgress(RunAll(r, es, salt), ss, n, salt);
  }

  /** The payloads that were written, of those passed on. */
  function WrittenOf(ps: seq<Passed>): seq<bytes>
    decreases |ps|
  {
    if ps == [] then [] else (if ps[0].ok then [ps[0].payload] else []) + WrittenOf(ps[1..])
  }

  predicate AllOk(ps: seq<Passed>) {
    forall i :: 0 <= i < |ps| ==> ps[i].ok
  }

  lemma {:induction false} AllWritten(ps: seq<Passed>)
    requires AllOk(ps)
    ensures WrittenOf(ps) == PayloadsOf(ps)
    decreases |ps|
  {
    if ps != [] {
      AllWritten(ps[1..]);
      assert PayloadsOf(ps) == [ps[0].payload] + PayloadsOf(ps[1..]);
    }
  }

  /** The same for one connection, when everything has been read and its queue is empty. */
  lemma DeliveredInFull(ss: seq<Sent>, es: seq<Event>, salt: u32, cid: ConnID)
    requires AllSendable(ss, salt) && Greeted(ss, |ss|, cid).Greeting?
    ensures var r := RunAll(Receiver(map[], Stream(ss, salt), Nothing), es, salt);
            r.rest == [] && r.held == Nothing ==>
            && cid in r.conns
            && r.conns[cid].target == Greeted(ss, |ss|, cid).target
            && (r.conns[cid].queue == [] ==>
                && PayloadsOf(r.conns[cid].passed) == Payloads(ss, |ss|, cid)
                && (AllOk(r.conns[cid].passed) ==> WrittenOf(r.conns[cid].passed) == Payloads(ss, |ss|, cid)))
  {
    var n := StreamIntegrity(ss, es, salt);
    var r := RunAll(Receiver(map[], Stream(ss, salt), Nothing), es, salt);
    assert Matches(r.conns, ss, n, cid);
    if cid in r.conns && AllOk(r.conns[cid].passed) {
      AllWritten(r.conns[cid].passed);
    }
  }
}
