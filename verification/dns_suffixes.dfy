/** Which suffixes the encoder remembers, and that it spells each of them out once. */
module DnsSuffixes {
  import opened Bytes
  import opened DnsNames
  import opened DnsEncode

  /** A name and everything after each of its dots. */
  function Suffixes(s: Name): set<Name>
    decreases |s|
  {
    if s == [] then {} else {s} + Suffixes(Suffix(s))
  }

  function EntrySuffixes(es: seq<Entry>): set<Name>
    decreases |es|
  {
    if es == [] then {} else Suffixes(es[0].name) + EntrySuffixes(es[1..])
  }

  /** The table holds the suffixes of all it holds, pending entries aside. */
  ghost predicate Closed(keys: set<Name>, pending: set<Name>) {
    forall k :: k in keys && k !in pending ==> Suffixes(k) <= keys
  }

  lemma {:induction false} PutNameKeys(g: Enc, s: Name, pending: set<Name>)
    requires Closed(g.table.Keys, pending)
    requires forall k :: k in pending ==> |k| > |s|
    ensures PutName(g, s).table.Keys == g.table.Keys + Suffixes(s)
    decreases |s|
  {
    if s != [] && s !in g.table {
      PutNameKeys(PutLabel(g, s), Suffix(s), pending + {s});
    }
  }

  lemma {:induction false} SuffixesClosed(s: Name)
    ensures Closed(Suffixes(s), {})
    decreases |s|
  {
    if s != [] {
      SuffixesClosed(Suffix(s));
    }
  }

  /** After any run of names, the table holds exactly their nonempty suffixes. */
  lemma {:induction false} TableComplete(g: Enc, es: seq<Entry>)
    requires Closed(g.table.Keys, {})
    ensures PutEntries(g, es).table.Keys == g.table.Keys + EntrySuffixes(es)
    decreases |es|
  {
    if es != [] {
      PutNameKeys(g, es[0].name, {});
      SuffixesClosed(es[0].name);
      TableComplete(PutEntry(g, es[0]), es[1..]);
    }
  }

  /* ---- each suffix in full once ---- */

  /** A suffix whose first label is written in place, and the offset where. */
  datatype Place = Place(name: Name, at: nat)

  function Inline(g: Enc, s: Name): seq<Place>
    decreases |s|
  {
    if s == [] || s in g.table then [] else [Place(s, |g.buf|)] + Inline(PutLabel(g, s), Suffix(s))
  }

  function InlineAll(g: Enc, es: seq<Entry>): seq<Place>
    decreases |es|
  {
    if es == [] then [] else Inline(g, es[0].name) + InlineAll(PutEntry(g, es[0]), es[1..])
  }

  ghost predicate Distinct(places: seq<Place>) {
    forall i, j :: 0 <= i < j < |places| ==> places[i].name != places[j].name
  }

  function NamesOf(places: seq<Place>): set<Name> {
    set p | p in places :: p.name
  }

  /** The label of p is where p says, and the table has that offset, cut to 16 bits. */
  predicate Placed(g: Enc, p: Place) {
    var end := p.at + 1 + |Prefix(p.name)|;
    && p.name in g.table && g.table[p.name] == p.at % WORD16
    && end <= |g.buf| && g.buf[p.at..end] == LabelBytes(Prefix(p.name))
  }

  ghost predicate Keeps(g: Enc, g': Enc) {
    && g.buf <= g'.buf
    && g.table.Keys <= g'.table.Keys
    && forall k :: k in g.table ==> g'.table[k] == g.table[k]
  }

  lemma PlacedStill(g: Enc, g': Enc, p: Place)
    requires Placed(g, p) && Keeps(g, g')
    ensures Placed(g', p)
  {
    var end := p.at + 1 + |Prefix(p.name)|;
    assert g'.buf[p.at..end] == g.buf[p.at..end];
  }

  lemma {:induction false} NameKeeps(g: Enc, s: Name)
    ensures Keeps(g, PutName(g, s))
    decreases |s|
  {
    if s != [] && s !in g.table {
      NameKeeps(PutLabel(g, s), Suffix(s));
    }
  }

  lemma {:induction false} EntriesKeep(g: Enc, es: seq<Entry>)
    ensures Keeps(g, PutEntries(g, es))
    decreases |es|
  {
    if es != [] {
      NameKeeps(g, es[0].name);
      EntriesKeep(PutEntry(g, es[0]), es[1..]);
      KeepsOn(g, PutEntry(g, es[0]), PutEntries(g, es));
    }
  }

  lemma KeepsOn(g: Enc, h: Enc, g': Enc)
    requires Keeps(g, h) && Keeps(h, g')
    ensures Keeps(g, g')
  {
  }

  lemma NamesOfBoth(a: seq<Place>, b: seq<Place>)
    ensures NamesOf(a + b) == NamesOf(a) + NamesOf(b)
  {
    assert forall p :: p in a + b <==> p in a || p in b;
  }

  /** Names written in place are new to the table, are all different, and become its new keys. */
  lemma {:induction false} InlineNew(g: Enc, s: Name)
    ensures Distinct(Inline(g, s))
    ensures forall p :: p in Inline(g, s) ==> p.name !in g.table && |p.name| <= |s|
    ensures PutName(g, s).table.Keys == g.table.Keys + NamesOf(Inline(g, s))
    decreases |s|
  {
    if s != [] && s !in g.table {
      var first, rest := [Place(s, |g.buf|)], Inline(PutLabel(g, s), Suffix(s));
      InlineNew(PutLabel(g, s), Suffix(s));
      NamesOfBoth(first, rest);
      assert NamesOf(first) == {s};
      DistinctBoth(first, rest, {s});
    }
  }

  /** Over a whole message no suffix is written in place twice: those written are the new keys of
      the table, and no entry ever moves. */
  lemma {:induction false} InlineOnce(g: Enc, es: seq<Entry>)
    ensures Keeps(g, PutEntries(g, es))
    ensures Distinct(InlineAll(g, es))
    ensures forall p :: p in InlineAll(g, es) ==> p.name !in g.table
    ensures PutEntries(g, es).table.Keys == g.table.Keys + NamesOf(InlineAll(g, es))
    decreases |es|
  {
    EntriesKeep(g, es);
    if es != [] {
      var h := PutEntry(g, es[0]);
      var first, rest := Inline(g, es[0].name), InlineAll(h, es[1..]);
      InlineOnce(h, es[1..]);
      InlineNew(g, es[0].name);
      NameKeeps(g, es[0].name);
      NamesOfBoth(first, rest);
      DistinctBoth(first, rest, h.table.Keys);
    }
  }

  lemma DistinctBoth(a: seq<Place>, b: seq<Place>, keys: set<Name>)
    requires Distinct(a) && Distinct(b)
    requires NamesOf(a) <= keys
    requires forall p :: p in b ==> p.name !in keys
    ensures Distinct(a + b)
  {
    forall i, j | 0 <= i < j < |a + b|
      ensures (a + b)[i].name != (a + b)[j].name
    {
      if i < |a| <= j {
        assert a[i] in a && a[i].name in NamesOf(a);
        assert b[j - |a|] in b;
      }
    }
  }

  lemma LabelPlaced(g: Enc, s: Name)
    requires s != []
    ensures Placed(PutLabel(g, s), Place(s, |g.buf|))
  {
    var h := PutLabel(g, s);
    assert h.buf[|g.buf|..|g.buf| + 1 + |Prefix(s)|] == LabelBytes(Prefix(s));
  }

  lemma {:induction false} NamePlaced(g: Enc, s: Name)
    ensures forall p :: p in Inline(g, s) ==> Placed(PutName(g, s), p)
    decreases |s|
  {
    if s != [] && s !in g.table {
      var h := PutLabel(g, s);
      NamePlaced(h, Suffix(s));
      NameKeeps(h, Suffix(s));
      LabelPlaced(g, s);
      PlacedStill(h, PutName(g, s), Place(s, |g.buf|));
    }
  }

  /** Each new entry leads to the one place where its suffix was written, as far as 16 bits say. */
  lemma {:induction false} InlineAt(g: Enc, es: seq<Entry>)
    ensures forall p :: p in InlineAll(g, es) ==> Placed(PutEntries(g, es), p)
    decreases |es|
  {
    if es != [] {
      var named, h, g' := PutName(g, es[0].name), PutEntry(g, es[0]), PutEntries(g, es);
      InlineAt(h, es[1..]);
      EntriesKeep(h, es[1..]);
      NamePlaced(g, es[0].name);
      KeepsOn(named, h, g');
      forall p | p in Inline(g, es[0].name)
        ensures Placed(g', p)
      {
        PlacedStill(named, g', p);
      }
    }
  }
}
