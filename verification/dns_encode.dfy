/** The message encoder: a buffer that grows by appending, and a table from name suffix to the
    offset where that suffix was first written. */
module DnsEncode {
  import opened Bytes
  import opened DnsNames
  import opened DnsMessage

  /** State of an encode: what has been written, and the suffix table. */
  datatype Enc = Enc(buf: bytes, table: map<Name, u16>) {
    function Append(more: bytes): Enc {
      Enc(buf + more, table)
    }
  }

  lemma AppendFive(g: Enc, a: bytes, b: bytes, c: bytes, d: bytes, e: bytes)
    ensures g.Append(a).Append(b).Append(c).Append(d).Append(e) == g.Append(a + b + c + d + e)
  {
    assert g.buf + a + b + c + d + e == g.buf + (a + b + c + d + e);
  }

  // offset | 0xC000, high byte first
  function PointerBytes(offset: u16): bytes {
    [Or8(offset / 0x100, 0xC0), offset % 0x100]
  }

  function LabelBytes(text: bytes): bytes {
    [|text| % 0x100] + text
  }

  /** The entry for a name is stored before its first label is written. */
  function PutLabel(g: Enc, s: Name): Enc {
    Enc(g.buf + LabelBytes(Prefix(s)), g.table[s := |g.buf| % WORD16])
  }

  /** Writes a name: a pointer as soon as what is left has been written before. */
  function PutName(g: Enc, s: Name): Enc
    decreases |s|
  {
    if s == [] then g.Append([0])
    else if s in g.table then g.Append(PointerBytes(g.table[s]))
    else PutName(PutLabel(g, s), Suffix(s))
  }

  lemma LabelFound(buf: bytes, text: bytes, more: bytes)
    requires |text| <= MAX_LABEL && buf + LabelBytes(text) <= more
    ensures var at := |buf|;
            && at + 1 + |text| <= |more| && more[at] == |text| && more[at + 1..at + 1 + |text|] == text
  {
    var b := buf + LabelBytes(text);
    assert more[|buf|] == b[|buf|];
    assert more[|buf| + 1..|b|] == b[|buf| + 1..|b|] == text;
  }

  function QuestTail(q: Quest): bytes {
    Be16(q.kind) + Be16(q.cls)
  }

  function RecordTail(r: Record): bytes {
    Be16(r.kind) + Be16(r.cls) + Be32(r.ttl) + Be16(|r.data| % WORD16) + r.data
  }

  /** A question or a record: a name and the bytes that follow it. */
  datatype Entry = Entry(name: Name, tail: bytes)

  function PutEntry(g: Enc, e: Entry): Enc {
    PutName(g, e.name).Append(e.tail)
  }

  function PutEntries(g: Enc, es: seq<Entry>): Enc
    decreases |es|
  {
    if es == [] then g else PutEntries(PutEntry(g, es[0]), es[1..])
  }

  function QuestEntries(qs: seq<Quest>): seq<Entry> {
    seq(|qs|, i requires 0 <= i < |qs| => Entry(qs[i].name, QuestTail(qs[i])))
  }

  function RecordEntries(rs: seq<Record>): seq<Entry> {
    seq(|rs|, i requires 0 <= i < |rs| => Entry(rs[i].name, RecordTail(rs[i])))
  }

  lemma QuestEntriesRest(qs: seq<Quest>)
    requires qs != []
    ensures QuestEntries(qs)[0] == Entry(qs[0].name, QuestTail(qs[0]))
    ensures QuestEntries(qs)[1..] == QuestEntries(qs[1..])
  {
  }

  lemma RecordEntriesRest(rs: seq<Record>)
    requires rs != []
    ensures RecordEntries(rs)[0] == Entry(rs[0].name, RecordTail(rs[0]))
    ensures RecordEntries(rs)[1..] == RecordEntries(rs[1..])
  {
  }

  /** Everything after the header, in the order it is written. */
  function Entries(m: Msg): seq<Entry> {
    QuestEntries(m.quests) + RecordEntries(m.answers) + RecordEntries(m.records)
  }

  lemma {:induction false} PutAppended(g: Enc, a: seq<Entry>, b: seq<Entry>)
    ensures PutEntries(g, a + b) == PutEntries(PutEntries(g, a), b)
    decreases |a|
  {
    if a == [] {
      assert a + b == b;
    } else {
      assert (a + b)[1..] == a[1..] + b;
      PutAppended(PutEntry(g, a[0]), a[1..], b);
    }
  }

  lemma {:induction false} NameGrows(g: Enc, s: Name)
    ensures g.buf < PutName(g, s).buf
    decreases |s|
  {
    if s != [] && s !in g.table {
      NameGrows(PutLabel(g, s), Suffix(s));
    }
  }

  lemma {:induction false} EntriesGrow(g: Enc, es: seq<Entry>)
    ensures g.buf <= PutEntries(g, es).buf
    decreases |es|
  {
    if es != [] {
      NameGrows(g, es[0].name);
      EntriesGrow(PutEntry(g, es[0]), es[1..]);
    }
  }

  function HeaderOf(m: Msg): Header {
    Header(m.id, m.opcode, 0, m.rcode,
           m.answers != [] || m.rcode != RCODE_OK, false, false, true, false,
           |m.quests| % WORD16, |m.answers| % WORD16, 0, |m.records| % WORD16)
  }

  function PutMessage(m: Msg, buf: bytes): Enc {
    PutEntries(Enc(buf + HeaderBytes(HeaderOf(m)), map[]), Entries(m))
  }

  /** The bytes of a message encoded into an empty buffer. */
  function Encoded(m: Msg): bytes {
    PutMessage(m, []).buf
  }

  class Encoder {
    var buf: bytes
    var m: map<Name, u16>

    constructor (buf: bytes)
      ensures State() == Enc(buf, map[])
    {
      this.buf := buf;
      m := map[];
    }

    function State(): Enc
      reads this
    {
      Enc(buf, m)
    }

    method U8(v: byte)
      modifies this
      ensures State() == old(State()).Append([v])
    {
      buf := buf + [v];
    }

    method U16(v: u16)
      modifies this
      ensures State() == old(State()).Append(Be16(v))
    {
      buf := buf + [v / 0x100];
      buf := buf + [v % 0x100];
    }

    method U32(v: u32)
      modifies this
      ensures State() == old(State()).Append(Be32(v))
    {
      buf := buf + [v / 0x100 / 0x100 / 0x100];
      buf := buf + [v / 0x100 / 0x100 % 0x100];
      buf := buf + [v / 0x100 % 0x100];
      buf := buf + [v % 0x100];
    }

    method Header(h: Header)
      modifies this
      ensures State() == old(State()).Append(HeaderBytes(h))
    {
      U16(h.id);
      U8(Flags1(h));
      U8(Flags2(h));
      assert buf == old(buf) + HeaderBytes(h)[..4];
      U16(h.quests);
      U16(h.answers);
      U16(h.servers);
      U16(h.records);
    }

    method Lookup(s: Name) returns (offset: u16, ok: bool)
      ensures ok <==> s in m
      ensures ok ==> offset == m[s]
    {
      ok := s in m;
      offset := if ok then m[s] else 0;
    }

    method Ptr(offset: u16)
      modifies this
      ensures State() == old(State()).Append(PointerBytes(offset))
    {
      buf := buf + [Or8(offset / 0x100, 0xC0)];
      buf := buf + [offset % 0x100];
    }

    method Label(s: bytes)
      modifies this
      ensures State() == old(State()).Append(LabelBytes(s))
    {
      U8(|s| % 0x100);
      buf := buf + s;
    }

    method Store(s: Name)
      modifies this
      ensures State() == Enc(old(buf), old(m)[s := |old(buf)| % WORD16])
    {
      m := m[s := |buf| % WORD16];
    }

    method Name(s: Name)
      modifies this
      ensures State() == PutName(old(State()), s)
      decreases |s|
    {
      if s == [] {
        U8(0);
        return;
      }
      var offset, ok := Lookup(s);
      if ok {
        Ptr(offset);
        return;
      }
      Store(s);
      Label(Prefix(s));
      Name(Suffix(s));
    }

    method Quest(q: Quest)
      modifies this
      ensures State() == PutEntry(old(State()), Entry(q.name, QuestTail(q)))
    {
      Name(q.name);
      U16(q.kind);
      U16(q.cls);
    }

    method Record(r: Record)
      modifies this
      ensures State() == PutEntry(old(State()), Entry(r.name, RecordTail(r)))
    {
      Name(r.name);
      U16(r.kind);
      U16(r.cls);
      U32(r.ttl);
      U16(|r.data| % WORD16);
      buf := buf + r.data;
      AppendFive(PutName(old(State()), r.name),
                 Be16(r.kind), Be16(r.cls), Be32(r.ttl), Be16(|r.data| % WORD16), r.data);
    }
  }

  /** Appends the encoded message to buf. */
  method Encode(m: Message, buf: bytes) returns (out: bytes)
    ensures out == PutMessage(m.View(), buf).buf
  {
    var g := new Encoder(buf);
    g.Header(HeaderOf(m.View()));

    ghost var start := g.State();
    ghost var qs, rs := QuestEntries(m.quests), RecordEntries(m.answers);
    for i := 0 to |m.quests|
      invariant PutEntries(g.State(), qs[i..]) == PutEntries(start, qs)
    {
      g.Quest(m.quests[i]);
    }
    ghost var mid := g.State();
    for i := 0 to |m.answers|
      invariant PutEntries(g.State(), rs[i..]) == PutEntries(mid, rs)
    {
      g.Record(m.answers[i]);
    }
    PutAppended(start, qs, rs);
    mid := g.State();
    ghost var before := qs + rs;
    rs := RecordEntries(m.records);
    for i := 0 to |m.records|
      invariant PutEntries(g.State(), rs[i..]) == PutEntries(mid, rs)
    {
      g.Record(m.records[i]);
    }
    PutAppended(start, before, rs);
    return g.buf;
  }
}
