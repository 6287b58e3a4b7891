/** DNS messages and the header of section 4.1.1 of RFC 1035. */
module DnsMessage {
  import opened Bytes
  import opened DnsNames

  const TYPE_ADDR: u16 := 1
  const CLASS_INTERNET: u16 := 1
  const OPCODE_QUERY: byte := 0
  const RCODE_OK: byte := 0

  type Addr = bytes

  datatype Quest = Quest(name: Name, kind: u16, cls: u16)

  // An answer is a record too.
  datatype Record = Record(name: Name, kind: u16, cls: u16, ttl: u32, data: bytes)

  datatype Msg = Msg(id: u16, opcode: byte, rcode: byte,
                     quests: seq<Quest>, answers: seq<Record>, records: seq<Record>)

  datatype Header = Header(id: u16, opcode: byte, rezv: byte, rcode: byte,
                           resp: bool, auth: bool, trunc: bool, recd: bool, reca: bool,
                           quests: u16, answers: u16, servers: u16, records: u16)

  /** The record that announces an empty pseudo-section. */
  const EMPTY_SECTION := Record([], 41, 512, 0, [])

  function AddressQuest(name: Name): Quest {
    Quest(name, TYPE_ADDR, CLASS_INTERNET)
  }

  function AddressAnswer(name: Name, ip: Addr, ttl: u32): Record {
    Record(name, TYPE_ADDR, CLASS_INTERNET, ttl, ip)
  }

  function AddressAnswers(name: Name, list: seq<Addr>, ttl: u32): seq<Record> {
    seq(|list|, i requires 0 <= i < |list| => AddressAnswer(name, list[i], ttl))
  }

  /** One answer per address, in order. */
  lemma AddressAnswersAre(name: Name, list: seq<Addr>, ttl: u32, answers: seq<Record>)
    requires |answers| == |list|
    requires forall i :: 0 <= i < |list| ==> answers[i] == Record(name, 1, 1, ttl, list[i])
    ensures answers == AddressAnswers(name, list, ttl)
  {
  }

  class Message {
    var id: u16
    var opcode: byte
    var rcode: byte
    var quests: seq<Quest>
    var answers: seq<Record>
    var records: seq<Record>

    constructor ()
      ensures View() == Msg(0, 0, 0, [], [], [])
    {
      id, opcode, rcode := 0, 0, 0;
      quests, answers, records := [], [], [];
    }

    function View(): Msg
      reads this
    {
      Msg(id, opcode, rcode, quests, answers, records)
    }

    method AddQuest(name: Name)
      modifies this
      ensures View() == old(View()).(quests := old(quests) + [AddressQuest(name)])
    {
      quests := quests + [AddressQuest(name)];
    }

    method AddRecord(r: Record)
      modifies this
      ensures View() == old(View()).(records := old(records) + [r])
    {
      records := records + [r];
    }

    method AddEmptySec()
      modifies this
      ensures View() == old(View()).(records := old(records) + [EMPTY_SECTION])
    {
      AddRecord(EMPTY_SECTION);
    }

    method AddAnswer(name: Name, ip: Addr, ttl: u32)
      modifies this
      ensures View() == old(View()).(answers := old(answers) + [AddressAnswer(name, ip, ttl)])
    {
      answers := answers + [AddressAnswer(name, ip, ttl)];
    }

    // The original panics on an empty list; its only caller has checked.
    method AddAnswers(name: Name, list: seq<Addr>, ttl: u32)
      requires list != []
      modifies this
      ensures View() == old(View()).(answers := answers)
      ensures |answers| == |old(answers)| + |list| && old(answers) <= answers
      ensures forall i :: 0 <= i < |list| ==> answers[|old(answers)| + i] == Record(name, 1, 1, ttl, list[i])
    {
      var before := |answers|;
      for i := 0 to |list|
        invariant View() == old(View()).(answers := answers)
        invariant |answers| == before + i && old(answers) <= answers
        invariant forall k :: 0 <= k < i ==> answers[before + k] == Record(name, 1, 1, ttl, list[k])
      {
        AddAnswer(name, list[i], ttl);
      }
    }
  }

  /* ---- header layout ---- */

  function BitBool(v: bool, pos: nat): byte
    requires pos < 8
  {
    assert Pow2(7) == 128 && forall i: nat :: i < 8 ==> Pow2(i) <= 128;
    if v then Pow2(pos) else 0
  }

  function Flags1(h: Header): byte {
    Or8(Or8(Or8(Or8(BitBool(h.resp, 7), h.opcode), BitBool(h.auth, 2)), BitBool(h.trunc, 1)), BitBool(h.recd, 0))
  }

  function Flags2(h: Header): byte {
    Or8(BitBool(h.reca, 7), h.rcode)
  }

  function HeaderBytes(h: Header): (r: bytes)
    ensures |r| == 12
  {
    [HighByte(h.id), LowByte(h.id), Flags1(h), Flags2(h),
     HighByte(h.quests), LowByte(h.quests), HighByte(h.answers), LowByte(h.answers),
     HighByte(h.servers), LowByte(h.servers), HighByte(h.records), LowByte(h.records)]
  }

  function ReadHeader(buf: bytes): Header
    requires |buf| >= 12
  {
    var b1, b2 := buf[2], buf[3];
    Header(GetBe16(buf, 0), b1 / 8 % 16, b2 / 16 % 8, b2 % 16,
           b1 / 128 != 0, b1 / 4 % 2 != 0, b1 / 2 % 2 != 0, b1 % 2 != 0, b2 / 128 != 0,
           GetBe16(buf, 4), GetBe16(buf, 6), GetBe16(buf, 8), GetBe16(buf, 10))
  }
}
