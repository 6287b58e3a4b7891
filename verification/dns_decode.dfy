/** The message decoder: a cursor that jumps through at most one pointer per name, and the
    section loops around it. */
module DnsDecode {
  import opened Bytes
  import opened DnsNames
  import opened DnsMessage

  datatype Error = NoHeader | EmptyName | NotEnoughData | RecursivePointer

  /** A value read from the buffer and the offset after it. */
  datatype Parse<+T> = Fail(error: Error) | Done(value: T, next: nat)

  /* ---- names, as the cursor reads them ---- */

  /** mark is the offset to come back to after a jump, 0 when no jump was made. */
  datatype Cursor = Cursor(pos: nat, mark: nat) {
    function Restored(): Cursor {
      if mark != 0 then Cursor(mark, 0) else this
    }
  }

  datatype Step = StepFail(error: Error) | Step(text: bytes, cursor: Cursor)

  function JumpsLeft(c: Cursor): nat {
    if c.mark == 0 then 1 else 0
  }

  /** One label. An empty text ends the name. */
  function ReadLabel(buf: bytes, c: Cursor): (r: Step)
    decreases JumpsLeft(c)
    ensures r.Step? && r.text == [] ==> r.cursor.mark == 0
    ensures r.Step? && r.text != [] ==>
              && r.cursor.pos <= |buf|
              && (JumpsLeft(r.cursor) < JumpsLeft(c) || (r.cursor.mark == c.mark && r.cursor.pos > c.pos))
  {
    if c.pos >= |buf| then StepFail(NotEnoughData)
    else
      var length := buf[c.pos];
      if length == 0 then Step([], Cursor(c.pos + 1, c.mark).Restored())
      else if IsPointer(length) then
        if c.mark != 0 then StepFail(RecursivePointer)
        else if c.pos + 1 >= |buf| then StepFail(NotEnoughData)
        else ReadLabel(buf, Cursor(PointerTarget(buf, c.pos), c.pos + 2))
      else if c.pos + 1 + length > |buf| then StepFail(NotEnoughData)
      else Step(buf[c.pos + 1..c.pos + 1 + length], Cursor(c.pos + 1 + length, c.mark))
  }

  datatype Walk = WalkFail(error: Error) | Walk(labels: seq<bytes>, cursor: Cursor) {
    function After(before: seq<bytes>): Walk {
      if WalkFail? then this else Walk(before + labels, cursor)
    }
  }

  /** All labels up to the empty one. */
  function ReadLabels(buf: bytes, c: Cursor): Walk
    decreases JumpsLeft(c), |buf| - c.pos
  {
    match ReadLabel(buf, c)
    case StepFail(e) => WalkFail(e)
    case Step(text, next) =>
      if text == [] then Walk([], next) else ReadLabels(buf, next).After([text])
  }

  /* ---- messages, under either way of reading names ---- */

  /** OneHop is this decoder. AnyHops is the reference reading of section 4.1.4 of RFC 1035. */
  datatype Mode = OneHop | AnyHops

  function ParseName(mode: Mode, buf: bytes, pos: nat): Parse<Name> {
    match mode
    case OneHop =>
      (match ReadLabels(buf, Cursor(pos, 0))
       case WalkFail(e) => Fail(e)
       case Walk(labels, c) => Done(Join(labels), c.pos))
    case AnyHops =>
      (match RfcRead(buf, pos, pos)
       case Unreadable => Fail(NotEnoughData)
       case Reading(labels, _) => Done(Join(labels), WireEnd(buf, pos)))
  }

  function ParseQuest(mode: Mode, buf: bytes, pos: nat): Parse<Quest> {
    match ParseName(mode, buf, pos)
    case Fail(e) => Fail(e)
    case Done(name, p) =>
      if name == [] then Fail(EmptyName)
      else if p + 4 > |buf| then Fail(NotEnoughData)
      else Done(Quest(name, GetBe16(buf, p), GetBe16(buf, p + 2)), p + 4)
  }

  function ParseRecord(mode: Mode, buf: bytes, pos: nat): Parse<Record> {
    match ParseName(mode, buf, pos)
    case Fail(e) => Fail(e)
    case Done(name, p) =>
      if p + 10 > |buf| then Fail(NotEnoughData)
      else
        var length := GetBe16(buf, p + 8);
        if p + 10 + length > |buf| then Fail(NotEnoughData)
        else
          Done(Record(name, GetBe16(buf, p), GetBe16(buf, p + 2), GetBe32(buf, p + 4),
                      buf[p + 10..p + 10 + length]), p + 10 + length)
  }

  function Before<T>(items: seq<T>, rest: Parse<seq<T>>): Parse<seq<T>> {
    match rest
    case Fail(e) => Fail(e)
    case Done(more, next) => Done(items + more, next)
  }

  function ParseQuests(mode: Mode, buf: bytes, pos: nat, n: nat): Parse<seq<Quest>>
    decreases n
  {
    if n == 0 then Done([], pos)
    else
      match ParseQuest(mode, buf, pos)
      case Fail(e) => Fail(e)
      case Done(q, next) => Before([q], ParseQuests(mode, buf, next, n - 1))
  }

  function ParseRecords(mode: Mode, buf: bytes, pos: nat, n: nat): Parse<seq<Record>>
    decreases n
  {
    if n == 0 then Done([], pos)
    else
      match ParseRecord(mode, buf, pos)
      case Fail(e) => Fail(e)
      case Done(r, next) => Before([r], ParseRecords(mode, buf, next, n - 1))
  }

  datatype Sections = Sections(header: Header, quests: seq<Quest>, answers: seq<Record>, records: seq<Record>)

  /** The header and the three sections that are parsed. Authority records are counted in the
      header but not skipped over: what follows the answers is read as additional records. */
  function ParseMessage(mode: Mode, buf: bytes): Parse<Sections> {
    if |buf| < 12 then Fail(NoHeader)
    else
      var h := ReadHeader(buf);
      match ParseQuests(mode, buf, 12, h.quests)
      case Fail(e) => Fail(e)
      case Done(quests, p1) =>
        match ParseRecords(mode, buf, p1, h.answers)
        case Fail(e) => Fail(e)
        case Done(answers, p2) =>
          match ParseRecords(mode, buf, p2, h.records)
          case Fail(e) => Fail(e)
          case Done(records, p3) => Done(Sections(h, quests, answers, records), p3)
  }

  /* ---- the decoder ---- */

  datatype Result<+T> = Ok(value: T) | Err(error: Error)

  class Decoder {
    const buf: bytes
    var pos: nat
    var mark: nat

    constructor (buf: bytes)
      ensures this.buf == buf && pos == 0 && mark == 0
    {
      this.buf := buf;
      pos, mark := 0, 0;
    }

    function At(): Cursor
      reads this
    {
      Cursor(pos, mark)
    }

    // Remaining bytes; negative when a jump led past the end.
    function Len(): int
      reads this
    {
      |buf| - pos
    }

    method Jump(offset: u16)
      modifies this
      ensures At() == Cursor(offset, old(pos))
    {
      mark := pos;
      pos := offset;
    }

    method Restore()
      modifies this
      ensures At() == old(At()).Restored()
    {
      if mark != 0 {
        pos := mark;
        mark := 0;
      }
    }

    method U8() returns (v: byte)
      requires Len() >= 1
      modifies this
      ensures v == buf[old(pos)] && At() == Cursor(old(pos) + 1, old(mark))
    {
      v := buf[pos];
      pos := pos + 1;
    }

    method U16() returns (v: u16)
      requires Len() >= 2
      modifies this
      ensures v == GetBe16(buf, old(pos)) && At() == Cursor(old(pos) + 2, old(mark))
    {
      var p := pos;
      pos := pos + 2;
      v := Word2(buf[p], buf[p + 1]);
    }

    method U32() returns (v: u32)
      requires Len() >= 4
      modifies this
      ensures v == GetBe32(buf, old(pos)) && At() == Cursor(old(pos) + 4, old(mark))
    {
      var p := pos;
      pos := pos + 4;
      v := Word4(buf[p], buf[p + 1], buf[p + 2], buf[p + 3]);
    }

    method Data(size: nat) returns (d: bytes)
      requires Len() >= size
      modifies this
      ensures d == buf[old(pos)..old(pos) + size] && At() == Cursor(old(pos) + size, old(mark))
    {
      var p := pos;
      pos := pos + size;
      d := buf[p..pos];
    }

    method Header() returns (r: Result<Header>)
      requires pos == 0
      modifies this
      ensures if |buf| < 12 then r == Err(NoHeader) else r == Ok(ReadHeader(buf)) && At() == Cursor(12, old(mark))
    {
      if Len() < 12 {
        return Err(NoHeader);
      }
      var id := U16();
      var b1 := U8();
      var b2 := U8();
      var quests := U16();
      var answers := U16();
      var servers := U16();
      var records := U16();
      r := Ok(DnsMessage.Header(id, b1 / 8 % 16, b2 / 16 % 8, b2 % 16,
                                b1 / 128 != 0, b1 / 4 % 2 != 0, b1 / 2 % 2 != 0, b1 % 2 != 0, b2 / 128 != 0,
                                quests, answers, servers, records));
    }

    method Label() returns (r: Result<bytes>)
      modifies this
      ensures match ReadLabel(buf, old(At()))
              case StepFail(e) => r == Err(e)
              case Step(text, next) => r == Ok(text) && At() == next
      decreases JumpsLeft(At())
    {
      if Len() < 1 {
        return Err(NotEnoughData);
      }
      var length := U8();
      if length == 0 {
        Restore();
        return Ok([]);
      }
      if length / 64 == 3 {
        if mark != 0 {
          return Err(RecursivePointer);
        }
        if Len() < 1 {
          return Err(NotEnoughData);
        }
        var b := U8();
        Jump(Word2(length % 64, b));
        r := Label();
        return;
      }
      if length > Len() {
        return Err(NotEnoughData);
      }
      var text := Data(length);
      return Ok(text);
    }

    /** Reads a name and leaves the cursor after it, with no jump pending. */
    method Name() returns (r: Result<Name>)
      requires mark == 0
      modifies this
      ensures match ParseName(OneHop, buf, old(pos))
              case Fail(e) => r == Err(e)
              case Done(name, next) => r == Ok(name) && pos == next && mark == 0
    {
      NameEndsUnmarked(buf, At());
      ghost var from := At();
      var start := Label();
      if start.Err? {
        return Err(start.error);
      }
      if start.value == [] {
        return Ok([]);
      }
      var b := start.value;
      ghost var labels := [start.value];
      while true
        invariant labels != [] && b == Join(labels)
        invariant ReadLabels(buf, from) == ReadLabels(buf, At()).After(labels)
        decreases JumpsLeft(At()), |buf| - pos
      {
        var next := Label();
        if next.Err? {
          return Err(next.error);
        }
        if next.value == [] {
          assert labels + [] == labels;
          return Ok(b);
        }
        JoinSnoc(labels, next.value);
        AfterTwice(ReadLabels(buf, At()), labels, next.value);
        b := b + [DOT] + next.value;
        labels := labels + [next.value];
      }
    }

    method Quest() returns (r: Result<Quest>)
      requires mark == 0
      modifies this
      ensures match ParseQuest(OneHop, buf, old(pos))
              case Fail(e) => r == Err(e)
              case Done(q, next) => r == Ok(q) && pos == next && mark == 0
    {
      var name := Name();
      if name.Err? {
        return Err(name.error);
      }
      if name.value == [] {
        return Err(EmptyName);
      }
      if Len() < 4 {
        return Err(NotEnoughData);
      }
      var kind := U16();
      var cls := U16();
      return Ok(DnsMessage.Quest(name.value, kind, cls));
    }

    method Record() returns (r: Result<Record>)
      requires mark == 0
      modifies this
      ensures match ParseRecord(OneHop, buf, old(pos))
              case Fail(e) => r == Err(e)
              case Done(a, next) => r == Ok(a) && pos == next && mark == 0
    {
      var name := Name();
      if name.Err? {
        return Err(name.error);
      }
      if Len() < 2 + 2 + 4 + 2 {
        return Err(NotEnoughData);
      }
      var kind := U16();
      var cls := U16();
      var ttl := U32();
      var length := U16();
      if Len() < length {
        return Err(NotEnoughData);
      }
      var data := Data(length);
      return Ok(DnsMessage.Record(name.value, kind, cls, ttl, data));
    }

    /** Reads one more of the n that are left. */
    method NextQuest(n: nat, quests: seq<DnsMessage.Quest>, ghost all: Parse<seq<DnsMessage.Quest>>)
      returns (r: Result<seq<DnsMessage.Quest>>)
      requires n > 0 && QuestsLeft(all, quests, n)
      modifies this
      ensures match r
              case Err(e) => all == Fail(e)
              case Ok(more) => QuestsLeft(all, more, n - 1)
    {
      QuestsStep(buf, pos, n, quests);
      var q := Quest();
      if q.Err? {
        return Err(q.error);
      }
      return Ok(quests + [q.value]);
    }

    /** The whole section is these, and then what n more give from here. */
    ghost predicate QuestsLeft(all: Parse<seq<DnsMessage.Quest>>, quests: seq<DnsMessage.Quest>, n: nat)
      reads this
    {
      mark == 0 && all == Before(quests, ParseQuests(OneHop, buf, pos, n))
    }

    method Quests(num: u16) returns (r: Result<seq<Quest>>)
      requires mark == 0
      modifies this
      ensures match ParseQuests(OneHop, buf, old(pos), num)
              case Fail(e) => r == Err(e)
              case Done(qs, next) => r == Ok(qs) && pos == next && mark == 0
    {
      ghost var all := ParseQuests(OneHop, buf, pos, num);
      BeforeNone(all);
      r := LoopQuests(num, all);
    }

    method LoopQuests(num: nat, ghost all: Parse<seq<DnsMessage.Quest>>) returns (r: Result<seq<DnsMessage.Quest>>)
      requires QuestsLeft(all, [], num)
      modifies this
      ensures match r
              case Err(e) => all == Fail(e)
              case Ok(quests) => mark == 0 && all == Done(quests, pos)
    {
      var quests, left := [], num;
      while left > 0
        invariant QuestsLeft(all, quests, left)
      {
        var more := NextQuest(left, quests, all);
        if more.Err? {
          return Err(more.error);
        }
        quests, left := more.value, left - 1;
      }
      QuestsNone(buf, pos, quests);
      return Ok(quests);
    }

    /** Reads one more of the n that are left. */
    method NextRecord(n: nat, records: seq<DnsMessage.Record>, ghost all: Parse<seq<DnsMessage.Record>>)
      returns (r: Result<seq<DnsMessage.Record>>)
      requires n > 0 && RecordsLeft(all, records, n)
      modifies this
      ensures match r
              case Err(e) => all == Fail(e)
              case Ok(more) => RecordsLeft(all, more, n - 1)
    {
      RecordsStep(buf, pos, n, records);
      var a := Record();
      if a.Err? {
        return Err(a.error);
      }
      return Ok(records + [a.value]);
    }

    /** The whole section is these, and then what n more give from here. */
    ghost predicate RecordsLeft(all: Parse<seq<DnsMessage.Record>>, records: seq<DnsMessage.Record>, n: nat)
      reads this
    {
      mark == 0 && all == Before(records, ParseRecords(OneHop, buf, pos, n))
    }

    /** Answers and additional records alike. */
    method Records(num: u16) returns (r: Result<seq<Record>>)
      requires mark == 0
      modifies this
      ensures match ParseRecords(OneHop, buf, old(pos), num)
              case Fail(e) => r == Err(e)
              case Done(rs, next) => r == Ok(rs) && pos == next && mark == 0
    {
      ghost var all := ParseRecords(OneHop, buf, pos, num);
      BeforeNone(all);
      r := LoopRecords(num, all);
    }

    method LoopRecords(num: nat, ghost all: Parse<seq<DnsMessage.Record>>) returns (r: Result<seq<DnsMessage.Record>>)
      requires RecordsLeft(all, [], num)
      modifies this
      ensures match r
              case Err(e) => all == Fail(e)
              case Ok(records) => mark == 0 && all == Done(records, pos)
    {
      var records, left := [], num;
      while left > 0
        invariant RecordsLeft(all, records, left)
      {
        var more := NextRecord(left, records, all);
        if more.Err? {
          return Err(more.error);
        }
        records, left := more.value, left - 1;
      }
      RecordsNone(buf, pos, records);
      return Ok(records);
    }
  }

  lemma {:induction false} NameEndsUnmarked(buf: bytes, c: Cursor)
    ensures ReadLabels(buf, c).Walk? ==> ReadLabels(buf, c).cursor.mark == 0
    decreases JumpsLeft(c), |buf| - c.pos
  {
    match ReadLabel(buf, c)
    case StepFail(_) =>
    case Step(text, next) =>
      if text != [] {
        NameEndsUnmarked(buf, next);
      }
  }

  lemma StepTaken(buf: bytes, c: Cursor)
    requires c.pos < |buf| && 0 < buf[c.pos] <= MAX_LABEL && c.pos + 1 + buf[c.pos] <= |buf|
    ensures var next := c.pos + 1 + buf[c.pos];
            ReadLabels(buf, c) == ReadLabels(buf, Cursor(next, c.mark)).After([buf[c.pos + 1..next]])
  {
    var next := c.pos + 1 + buf[c.pos];
    assert ReadLabel(buf, c) == Step(buf[c.pos + 1..next], Cursor(next, c.mark));
  }

  lemma JumpTaken(buf: bytes, pos: nat)
    requires pos + 1 < |buf| && IsPointer(buf[pos])
    ensures ReadLabels(buf, Cursor(pos, 0)) == ReadLabels(buf, Cursor(PointerTarget(buf, pos), pos + 2))
  {
    assert ReadLabel(buf, Cursor(pos, 0)) == ReadLabel(buf, Cursor(PointerTarget(buf, pos), pos + 2));
  }

  lemma AfterTwice(w: Walk, before: seq<bytes>, text: bytes)
    ensures w.After([text]).After(before) == w.After(before + [text])
  {
    if w.Walk? {
      assert before + ([text] + w.labels) == (before + [text]) + w.labels;
    }
  }

  lemma QuestsNone(buf: bytes, pos: nat, quests: seq<Quest>)
    ensures Before(quests, ParseQuests(OneHop, buf, pos, 0)) == Done(quests, pos)
  {
    assert quests + [] == quests;
  }

  /** One turn of the loop that reads quests. */
  lemma QuestsStep(buf: bytes, pos: nat, n: nat, quests: seq<Quest>)
    requires n > 0
    ensures Before(quests, ParseQuests(OneHop, buf, pos, n)) ==
            match ParseQuest(OneHop, buf, pos)
            case Fail(e) => Fail(e)
            case Done(r, next) => Before(quests + [r], ParseQuests(OneHop, buf, next, n - 1))
  {
    var first := ParseQuest(OneHop, buf, pos);
    if first.Done? {
      BeforeTwice(quests, first.value, ParseQuests(OneHop, buf, first.next, n - 1));
    }
  }

  lemma RecordsNone(buf: bytes, pos: nat, records: seq<Record>)
    ensures Before(records, ParseRecords(OneHop, buf, pos, 0)) == Done(records, pos)
  {
    assert records + [] == records;
  }

  /** One turn of the loop that reads records. */
  lemma RecordsStep(buf: bytes, pos: nat, n: nat, records: seq<Record>)
    requires n > 0
    ensures Before(records, ParseRecords(OneHop, buf, pos, n)) ==
            match ParseRecord(OneHop, buf, pos)
            case Fail(e) => Fail(e)
            case Done(r, next) => Before(records + [r], ParseRecords(OneHop, buf, next, n - 1))
  {
    var first := ParseRecord(OneHop, buf, pos);
    if first.Done? {
      BeforeTwice(records, first.value, ParseRecords(OneHop, buf, first.next, n - 1));
    }
  }

  lemma BeforeNone<T>(rest: Parse<seq<T>>)
    ensures Before([], rest) == rest
  {
    if rest.Done? {
      assert [] + rest.value == rest.value;
    }
  }

  lemma BeforeTwice<T>(items: seq<T>, item: T, rest: Parse<seq<T>>)
    ensures Before(items, Before([item], rest)) == Before(items + [item], rest)
  {
    if rest.Done? {
      assert items + ([item] + rest.value) == (items + [item]) + rest.value;
    }
  }

  /** Fills in m and reports nothing, or leaves m alone and reports the error. Additional
      records and the response code are parsed but not kept. */
  method Decode(m: Message, data: bytes) returns (r: Result<()>)
    modifies m
    ensures match ParseMessage(OneHop, data)
            case Fail(e) => r == Err(e) && m.View() == old(m.View())
            case Done(d, _) =>
              && r == Ok(())
              && m.View() == old(m.View()).(id := d.header.id, opcode := d.header.opcode,
                                            quests := d.quests, answers := d.answers)
  {
    var dec := new Decoder(data);
    var h := dec.Header();
    if h.Err? {
      return Err(h.error);
    }
    var quests := dec.Quests(h.value.quests);
    if quests.Err? {
      return Err(quests.error);
    }
    var answers := dec.Records(h.value.answers);
    if answers.Err? {
      return Err(answers.error);
    }
    var records := dec.Records(h.value.records);
    if records.Err? {
      return Err(records.error);
    }
    m.quests := quests.value;
    m.answers := answers.value;
    m.id := h.value.id;
    m.opcode := h.value.opcode;
    return Ok(());
  }
}
