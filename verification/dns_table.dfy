/** What the suffix table of the encoder means at every step of an encode. */
module DnsTable {
  import opened Bytes
  import opened DnsNames
  import opened DnsEncode

  /** Offsets a pointer can hold. */
  const REACH := 0x4000

  /* ---- pointer chains, on names alone ---- */

  /** For each suffix written so far, how many pointers its own spelling goes through. */
  type Chains = map<Name, nat>

  /** How many pointers a name goes through when it is written after the names in t. */
  function Depth(t: Chains, s: Name): nat
    decreases |s|
  {
    if s == [] then 0
    else if s in t then 1 + t[s]
    else Depth(t, Suffix(s))
  }

  function Learn(t: Chains, s: Name): Chains
    decreases |s|
  {
    if s == [] || s in t then t
    else Learn(t, Suffix(s))[s := Depth(t, s)]
  }

  /* ---- soundness of the table ---- */

  /** The suffixes stored where no pointer reaches, once s is about to be stored too. */
  function FarWith(g: Enc, s: Name, far: set<Name>): set<Name> {
    if |g.buf| < REACH then far else far + {s}
  }

  /** The same after all of s has been written. */
  function Far(g: Enc, s: Name, far: set<Name>): (r: set<Name>)
    decreases |s|
    ensures far <= r
  {
    if s == [] || s in g.table then far else Far(PutLabel(g, s), Suffix(s), FarWith(g, s, far))
  }

  /** The name does not end in a pointer to a suffix out of reach. */
  predicate Fits(g: Enc, s: Name, far: set<Name>)
    decreases |s|
  {
    s == [] ||
    if s in g.table then s !in far else Fits(PutLabel(g, s), Suffix(s), FarWith(g, s, far))
  }

  /** Entry k points at a spelling of k, in the reference reading, with the hops t foretells. */
  ghost predicate EntrySound(g: Enc, t: Chains, k: Name)
    requires k in g.table && k in t
  {
    && k != []
    && g.table[k] < REACH
    && g.table[k] < |g.buf|
    && Read(g.buf, g.table[k], g.table[k]) == Reading(Labels(k), t[k])
  }

  /** All entries are sound but the pending ones, whose names are still being written, and those
      out of reach. */
  ghost predicate Sound(g: Enc, t: Chains, pending: set<Name>, far: set<Name>)
  {
    && g.table.Keys == t.Keys + pending
    && t.Keys !! pending
    && forall k {:trigger EntrySound(g, t, k)} :: k in t && k !in far ==> EntrySound(g, t, k)
  }

  lemma AppendKeepsSound(g: Enc, more: bytes, t: Chains, pending: set<Name>, far: set<Name>)
    requires Sound(g, t, pending, far)
    ensures Sound(g.Append(more), t, pending, far)
  {
    var g' := g.Append(more);
    forall k | k in t && k !in far
      ensures EntrySound(g', t, k)
    {
      assert EntrySound(g, t, k);
      ReadStable(g.buf, g'.buf, g.table[k], g.table[k], g.table[k]);
    }
  }

  /** An entry stored ahead of its bytes is pending, and leaves the others as they were. */
  lemma LabelKeepsSound(g: Enc, s: Name, t: Chains, pending: set<Name>, far: set<Name>)
    requires Sound(g, t, pending, far) && s !in g.table
    ensures Sound(PutLabel(g, s), t, pending + {s}, FarWith(g, s, far))
  {
    var stored := Enc(g.buf, g.table[s := |g.buf| % WORD16]);
    forall k | k in t && k !in far
      ensures EntrySound(stored, t, k)
    {
      assert EntrySound(g, t, k);
    }
    AppendKeepsSound(stored, LabelBytes(Prefix(s)), t, pending + {s}, FarWith(g, s, far));
  }

  /** Once its bytes are there, a pending entry within reach becomes a sound one. */
  lemma Settle(g: Enc, s: Name, hops: nat, t: Chains, pending: set<Name>, far: set<Name>)
    requires s != [] && s !in pending
    requires Sound(g, t, pending + {s}, far)
    requires s !in far ==>
      && g.table[s] < REACH && g.table[s] < |g.buf|
      && Read(g.buf, g.table[s], g.table[s]) == Reading(Labels(s), hops)
    ensures Sound(g, t[s := hops], pending, far)
  {
    var t' := t[s := hops];
    forall k | k in t' && k !in far
      ensures EntrySound(g, t', k)
    {
      if k != s {
        assert EntrySound(g, t, k);
      }
    }
  }

  /** A pointer to what was stored at `at` leads to the low 14 bits of that, so it is right
      exactly below 16 KiB. */
  lemma PointerHolds(buf: bytes, at: nat)
    ensures var b := buf + PointerBytes(at % WORD16);
            && |b| == |buf| + 2 && IsPointer(b[|buf|])
            && PointerTarget(b, |buf|) == at % REACH
            && (PointerTarget(b, |buf|) == at <==> at < REACH)
  {
    LowOfCut(at);
    LowOfSmall(at);
    PointerLeads(buf, at % WORD16);
  }

  lemma LowOfSmall(at: nat)
    ensures at % REACH == at <==> at < REACH
  {
  }

  /** Cutting an offset to 16 bits leaves its low 14. */
  lemma LowOfCut(at: nat)
    ensures at % WORD16 % REACH == at % REACH
  {
    var high, low := at / WORD16, at % WORD16;
    QuotientUnique(at, REACH, high * 4 + low / REACH, low % REACH);
  }

  lemma PointerLeads(buf: bytes, offset: u16)
    ensures var b := buf + PointerBytes(offset);
            && |b| == |buf| + 2 && IsPointer(b[|buf|])
            && PointerTarget(b, |buf|) == offset % REACH
  {
    Or8TopTwo(offset / 0x100);
    LowFourteen(offset);
    PointerBytesAt(buf, Or8(offset / 0x100, 0xC0), offset % 0x100);
  }

  lemma PointerBytesAt(buf: bytes, high: byte, low: byte)
    requires high >= 0xC0
    ensures var b := buf + [high, low];
            |b| == |buf| + 2 && b[|buf|] == high && PointerTarget(b, |buf|) == Word2(high - 0xC0, low)
  {
  }

  lemma LowFourteen(offset: u16)
    ensures Word2(offset / 0x100 % 64, offset % 0x100) == offset % REACH
  {
    var h, l := offset / 0x100, offset % 0x100;
    QuotientUnique(offset, REACH, h / 64, Word2(h % 64, l));
  }

  /** Reading a name from a label that has been written. */
  lemma LabelReads(buf: bytes, at: nat, text: bytes, limit: nat, labels: seq<bytes>, hops: nat)
    requires 1 <= |text| <= MAX_LABEL
    requires at + 1 + |text| <= |buf| && buf[at..at + 1 + |text|] == LabelBytes(text)
    requires Read(buf, at + 1 + |text|, limit) == Reading(labels, hops)
    ensures Read(buf, at, limit) == Reading([text] + labels, hops)
    ensures WireEnd(buf, at) == WireEnd(buf, at + 1 + |text|)
  {
    LabelAt(buf, at, text);
  }

  lemma LabelAt(buf: bytes, at: nat, text: bytes)
    requires 1 <= |text| <= MAX_LABEL
    requires at + 1 + |text| <= |buf| && buf[at..at + 1 + |text|] == LabelBytes(text)
    ensures buf[at] == |text|
    ensures buf[at + 1..at + 1 + |text|] == text
  {
    SubAt(buf, at, LabelBytes(text), 0, 1);
    SubAt(buf, at, LabelBytes(text), 1, 1 + |text|);
    assert buf[at] == buf[at..at + 1 + |text|][0];
  }

  lemma TailFollows(b: bytes, tail: bytes, more: bytes)
    requires b + tail <= more
    ensures b <= more && |b| + |tail| <= |more| && more[|b|..|b| + |tail|] == tail
  {
    assert b <= b + tail;
    assert (b + tail)[|b|..|b| + |tail|] == tail;
  }

  /** The state in which a name that starts at `start` is about to be continued with s. */
  ghost predicate Ready(g: Enc, s: Name, t: Chains, pending: set<Name>, far: set<Name>, start: nat)
  {
    && Sound(g, t, pending, far)
    && (forall k :: k in pending ==> |k| > |s|)
    && start <= |g.buf|
    && (forall k :: k in t && k !in far ==> g.table[k] < start)
  }

  /** The bytes added between g and g' read back as the labels of s, through exactly the
      foretold number of pointers, each leading below `start`. */
  ghost predicate Spelled(g: Enc, g': Enc, s: Name, t: Chains, start: nat)
  {
    && g.buf < g'.buf
    && Read(g'.buf, |g.buf|, start) == Reading(Labels(s), Depth(t, s))
    && WireEnd(g'.buf, |g.buf|) == |g'.buf|
  }

  /** The table with the suffixes of s added is sound, and nothing already in it has moved. */
  ghost predicate Grown(g: Enc, g': Enc, s: Name, t: Chains, pending: set<Name>, far: set<Name>)
  {
    && Sound(g', Learn(t, s), pending, far)
    && (forall k :: k in g.table ==> k in g'.table && g'.table[k] == g.table[k])
  }

  /** The heart of the compressor. */
  lemma {:induction false} PutNameSound(g: Enc, s: Name, t: Chains, pending: set<Name>, far: set<Name>, start: nat)
    requires WellFormed(s) && Fits(g, s, far)
    requires Ready(g, s, t, pending, far, start)
    ensures Spelled(g, PutName(g, s), s, t, start)
    ensures Grown(g, PutName(g, s), s, t, pending, Far(g, s, far))
    decreases |s|
  {
    if s == [] {
      AppendKeepsSound(g, [0], t, pending, far);
    } else if s in g.table {
      PutPointer(g, s, t, pending, far, start);
    } else {
      LabelIsReady(g, s, t, pending, far, start);
      PutNameSound(PutLabel(g, s), Suffix(s), t, pending + {s}, FarWith(g, s, far), start);
      SpelledFromLabel(g, PutName(g, s), s, t, start);
      GrownFromLabel(g, PutName(g, s), s, t, pending, Far(g, s, far), start);
    }
  }

  lemma PutPointer(g: Enc, s: Name, t: Chains, pending: set<Name>, far: set<Name>, start: nat)
    requires s != [] && s in g.table && s !in far
    requires Ready(g, s, t, pending, far, start)
    ensures Spelled(g, g.Append(PointerBytes(g.table[s])), s, t, start)
    ensures Grown(g, g.Append(PointerBytes(g.table[s])), s, t, pending, far)
  {
    var offset := g.table[s];
    assert s in t && EntrySound(g, t, s);
    AppendKeepsSound(g, PointerBytes(offset), t, pending, far);
    PointerReads(g.buf, offset, start, Labels(s), t[s]);
  }

  lemma PointerReads(buf: bytes, offset: u16, start: nat, labels: seq<bytes>, hops: nat)
    requires offset < REACH && offset < start <= |buf|
    requires Read(buf, offset, offset) == Reading(labels, hops)
    ensures var more := buf + PointerBytes(offset);
            && buf < more
            && Read(more, |buf|, start) == Reading(labels, hops + 1)
            && WireEnd(more, |buf|) == |more|
  {
    var more := buf + PointerBytes(offset);
    PointerLeads(buf, offset);
    LowOfSmall(offset);
    ReadStable(buf, more, offset, offset, offset);
  }

  lemma LabelIsReady(g: Enc, s: Name, t: Chains, pending: set<Name>, far: set<Name>, start: nat)
    requires s != [] && s !in g.table
    requires Ready(g, s, t, pending, far, start)
    ensures Ready(PutLabel(g, s), Suffix(s), t, pending + {s}, FarWith(g, s, far), start)
  {
    LabelKeepsSound(g, s, t, pending, far);
    var g' := PutLabel(g, s);
    forall k | k in t && k !in far
      ensures g'.table[k] < start
    {
      assert k in g.table && k != s;
    }
  }

  lemma SpelledFromLabel(g: Enc, g': Enc, s: Name, t: Chains, start: nat)
    requires s != [] && s !in t && WellFormed(s)
    requires start <= |g.buf|
    requires Spelled(PutLabel(g, s), g', Suffix(s), t, start)
    ensures Spelled(g, g', s, t, start)
  {
    LabelSpelled(g.buf, Prefix(s), g'.buf, start, Labels(Suffix(s)), Depth(t, Suffix(s)));
  }

  lemma LabelSpelled(buf: bytes, text: bytes, more: bytes, start: nat, labels: seq<bytes>, hops: nat)
    requires 1 <= |text| <= MAX_LABEL
    requires var h := buf + LabelBytes(text);
             h < more && Read(more, |h|, start) == Reading(labels, hops) && WireEnd(more, |h|) == |more|
    ensures buf < more
    ensures Read(more, |buf|, start) == Reading([text] + labels, hops)
    ensures WireEnd(more, |buf|) == |more|
  {
    TailFollows(buf, LabelBytes(text), more);
    LabelReads(more, |buf|, text, start, labels, hops);
  }

  lemma GrownFromLabel(g: Enc, g': Enc, s: Name, t: Chains, pending: set<Name>, far: set<Name>, start: nat)
    requires s != [] && s !in t && s !in pending && s !in g.table
    requires start <= |g.buf|
    requires |g.buf| < REACH || s in far
    requires Spelled(g, g', s, t, start)
    requires Grown(PutLabel(g, s), g', Suffix(s), t, pending + {s}, far)
    ensures Grown(g, g', s, t, pending, far)
  {
    LabelTable(g, s, g'.table);
    if s !in far {
      ReadStable(g'.buf, g'.buf, |g.buf|, start, |g.buf|);
      assert |g.buf| % WORD16 == |g.buf|;
    }
    Settle(g', s, Depth(t, s), Learn(t, Suffix(s)), pending, far);
  }

  lemma LabelTable(g: Enc, s: Name, table: map<Name, u16>)
    requires s !in g.table
    requires forall k :: k in PutLabel(g, s).table ==> k in table && table[k] == PutLabel(g, s).table[k]
    ensures s in table && table[s] == |g.buf| % WORD16
    ensures forall k :: k in g.table ==> k in table && table[k] == g.table[k]
  {
    var h := PutLabel(g, s).table;
    assert h[s] == |g.buf| % WORD16 && s in h;
    assert forall k :: k in g.table ==> k in h && h[k] == g.table[k];
  }

  /* ---- whole messages ---- */

  function FarAfter(g: Enc, es: seq<Entry>, far: set<Name>): set<Name>
    decreases |es|
  {
    if es == [] then far else FarAfter(PutEntry(g, es[0]), es[1..], Far(g, es[0].name, far))
  }

  predicate EntriesFit(g: Enc, es: seq<Entry>, far: set<Name>)
    decreases |es|
  {
    es == [] ||
    (Fits(g, es[0].name, far) && EntriesFit(PutEntry(g, es[0]), es[1..], Far(g, es[0].name, far)))
  }

  function LearnEntries(t: Chains, es: seq<Entry>): Chains
    decreases |es|
  {
    if es == [] then t else LearnEntries(Learn(t, es[0].name), es[1..])
  }

  predicate NamesWellFormed(es: seq<Entry>) {
    forall i :: 0 <= i < |es| ==> WellFormed(es[i].name)
  }

  lemma PutEntrySound(g: Enc, e: Entry, t: Chains, far: set<Name>)
    requires WellFormed(e.name) && Fits(g, e.name, far)
    requires Sound(g, t, {}, far)
    ensures Spelled(g, PutName(g, e.name), e.name, t, |g.buf|)
    ensures Sound(PutEntry(g, e), Learn(t, e.name), {}, Far(g, e.name, far))
    ensures g.buf < PutEntry(g, e).buf
  {
    forall k | k in t && k !in far
      ensures g.table[k] < |g.buf|
    {
      assert EntrySound(g, t, k);
    }
    PutNameSound(g, e.name, t, {}, far, |g.buf|);
    AppendKeepsSound(PutName(g, e.name), e.tail, Learn(t, e.name), {}, Far(g, e.name, far));
  }

  /* ---- any names at all ---- */

  /** A name fits when all that is out of reach is longer than it. */
  lemma {:induction false} ShorterFits(g: Enc, s: Name, far: set<Name>)
    requires forall k :: k in far ==> |k| > |s|
    ensures Fits(g, s, far)
    decreases |s|
  {
    if s != [] && s !in g.table {
      ShorterFits(PutLabel(g, s), Suffix(s), FarWith(g, s, far));
    }
  }

  /** Only beyond reach is anything stored out of reach. */
  lemma {:induction false} FarIsLate(g: Enc, s: Name, far: set<Name>)
    ensures Far(g, s, far) != far ==> |PutName(g, s).buf| >= REACH
    decreases |s|
  {
    if s != [] && s !in g.table {
      FarIsLate(PutLabel(g, s), Suffix(s), FarWith(g, s, far));
      NameGrows(PutLabel(g, s), Suffix(s));
    }
  }

  /** Beyond reach, a name adds only suffixes out of reach. */
  lemma {:induction false} LateIsSound(g: Enc, s: Name, t: Chains, pending: set<Name>, far: set<Name>)
    requires |g.buf| >= REACH && Sound(g, t, pending, far)
    requires forall k :: k in pending ==> |k| > |s|
    ensures Sound(PutName(g, s), Learn(t, s), pending, Far(g, s, far))
    decreases |s|
  {
    if s == [] {
      AppendKeepsSound(g, [0], t, pending, far);
    } else if s in g.table {
      AppendKeepsSound(g, PointerBytes(g.table[s]), t, pending, far);
    } else {
      LabelKeepsSound(g, s, t, pending, far);
      LateIsSound(PutLabel(g, s), Suffix(s), t, pending + {s}, FarWith(g, s, far));
      Settle(PutName(g, s), s, Depth(t, s), Learn(t, Suffix(s)), pending, Far(g, s, far));
    }
  }

  /** Nothing is out of reach until the buffer is. */
  predicate FarLate(g: Enc, far: set<Name>) {
    far != {} ==> |g.buf| >= REACH
  }

  lemma AnyEntrySound(g: Enc, e: Entry, t: Chains, far: set<Name>)
    requires WellFormed(e.name) && FarLate(g, far) && Sound(g, t, {}, far)
    ensures var far' := Far(g, e.name, far);
            FarLate(PutEntry(g, e), far') && Sound(PutEntry(g, e), Learn(t, e.name), {}, far')
  {
    NameGrows(g, e.name);
    FarIsLate(g, e.name, far);
    if |g.buf| < REACH {
      ShorterFits(g, e.name, {});
      PutEntrySound(g, e, t, {});
    } else {
      LateIsSound(g, e.name, t, {}, far);
      AppendKeepsSound(PutName(g, e.name), e.tail, Learn(t, e.name), {}, Far(g, e.name, far));
    }
  }

  /** The table is sound after any run of well-formed names, whatever is written between them. */
  lemma {:induction false} PutEntriesSound(g: Enc, es: seq<Entry>, t: Chains, far: set<Name>)
    requires NamesWellFormed(es) && FarLate(g, far)
    requires Sound(g, t, {}, far)
    ensures Sound(PutEntries(g, es), LearnEntries(t, es), {}, FarAfter(g, es, far))
    ensures FarLate(PutEntries(g, es), FarAfter(g, es, far))
    decreases |es|
  {
    if es != [] {
      AnyEntrySound(g, es[0], t, far);
      PutEntriesSound(PutEntry(g, es[0]), es[1..], Learn(t, es[0].name), Far(g, es[0].name, far));
    }
  }

  /** What holds after the first of several entries. */
  lemma FirstEntry(g: Enc, es: seq<Entry>, t: Chains, far: set<Name>)
    requires es != [] && NamesWellFormed(es) && EntriesFit(g, es, far) && Sound(g, t, {}, far)
    ensures var g1, far1 := PutEntry(g, es[0]), Far(g, es[0].name, far);
            && PutEntries(g, es) == PutEntries(g1, es[1..])
            && g1.buf <= PutEntries(g, es).buf
            && NamesWellFormed(es[1..]) && EntriesFit(g1, es[1..], far1)
            && Sound(g1, Learn(t, es[0].name), {}, far1)
  {
    PutEntrySound(g, es[0], t, far);
    EntriesGrow(PutEntry(g, es[0]), es[1..]);
  }

  lemma {:induction false} FitsAppended(g: Enc, a: seq<Entry>, b: seq<Entry>, far: set<Name>)
    ensures EntriesFit(g, a + b, far) <==> EntriesFit(g, a, far) && EntriesFit(PutEntries(g, a), b, FarAfter(g, a, far))
    ensures FarAfter(g, a + b, far) == FarAfter(PutEntries(g, a), b, FarAfter(g, a, far))
    decreases |a|
  {
    if a == [] {
      assert a + b == b;
    } else {
      assert (a + b)[1..] == a[1..] + b;
      FitsAppended(PutEntry(g, a[0]), a[1..], b, Far(g, a[0].name, far));
    }
  }
}
