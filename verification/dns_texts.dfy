/** Which texts survive as names: exactly the well-formed ones. */
module DnsTexts {
  import opened Bytes
  import opened DnsNames
  import opened DnsEncode
  import opened DnsDecode
  import opened DnsBounds
  import opened DnsCompression

  /** Without anything to point back to, a name is written in full. */
  lemma {:induction false} FreshIsPlain(g: Enc, s: Name)
    requires forall k :: k in g.table ==> |k| > |s|
    ensures PutName(g, s).buf == PutPlainName(g.buf, s)
    decreases |s|
  {
    if s != [] {
      FreshIsPlain(PutLabel(g, s), Suffix(s));
    }
  }

  /* ---- labels too long ---- */

  predicate NoLong(s: Name)
    decreases |s|
  {
    s == [] || (FirstDot(s) <= MAX_LABEL && NoLong(Suffix(s)))
  }

  predicate NoDot(s: Name, i: nat, j: nat)
    requires i <= j <= |s|
  {
    forall k :: i <= k < j ==> s[k] != DOT
  }

  lemma {:induction false} NoDotBefore(s: Name, from: nat)
    requires from <= |s|
    ensures NoDot(s, from, DotFrom(s, from))
    decreases |s| - from
  {
    if from < |s| && s[from] != DOT {
      NoDotBefore(s, from + 1);
    }
  }

  /** A label too long is a stretch without a dot. */
  lemma {:induction false} LongStretch(s: Name) returns (i: nat)
    requires !NoLong(s)
    ensures i + MAX_LABEL < |s| && NoDot(s, i, i + MAX_LABEL + 1)
    decreases |s|
  {
    if FirstDot(s) > MAX_LABEL {
      i := 0;
      NoDotBefore(s, 0);
    } else {
      var n, t := FirstDot(s) + 1, Suffix(s);
      var k := LongStretch(t);
      i := n + k;
      assert forall j :: 0 <= j < |t| ==> s[n + j] == t[j];
      forall j | i <= j < i + MAX_LABEL + 1
        ensures s[j] != DOT
      {
        assert s[j] == t[j - n];
      }
    }
  }

  predicate LabelSizes(labels: seq<bytes>) {
    forall i :: 0 <= i < |labels| ==> 1 <= |labels[i]| <= MAX_LABEL
  }

  /** Whatever the bytes, the labels the decoder finds are never empty and never too long. */
  lemma {:induction false} FoundSizes(buf: bytes, c: Cursor)
    ensures ReadLabels(buf, c).Walk? ==> LabelSizes(ReadLabels(buf, c).labels)
    decreases JumpsLeft(c), |buf| - c.pos
  {
    LabelSize(buf, c);
    match ReadLabel(buf, c)
    case StepFail(_) =>
    case Step(text, next) =>
      if text != [] {
        FoundSizes(buf, next);
      }
  }

  lemma {:induction false} LabelSize(buf: bytes, c: Cursor)
    ensures ReadLabel(buf, c).Step? ==> |ReadLabel(buf, c).text| <= MAX_LABEL
    decreases JumpsLeft(c)
  {
    if c.pos + 1 < |buf| && IsPointer(buf[c.pos]) && c.mark == 0 {
      LabelSize(buf, Cursor(PointerTarget(buf, c.pos), c.pos + 2));
    }
  }

  /** So what it joins has a dot in every such stretch. */
  lemma {:induction false} DotsOften(labels: seq<bytes>, i: nat)
    requires LabelSizes(labels) && i + MAX_LABEL < |Join(labels)|
    ensures !NoDot(Join(labels), i, i + MAX_LABEL + 1)
    decreases |labels|
  {
    if |labels| > 1 {
      var s, n, rest := Join(labels), |labels[0]|, Join(labels[1..]);
      if i <= n {
        assert s[n] == DOT;
      } else {
        DotsOften(labels[1..], i - n - 1);
        var k :| i - n - 1 <= k < i - n + MAX_LABEL && rest[k] == DOT;
        assert s[n + 1 + k] == rest[k];
      }
    }
  }

  /* ---- empty labels, and dots at the end ---- */

  lemma {:induction false} PlainGrows(buf: bytes, s: Name)
    ensures buf < PutPlainName(buf, s)
    decreases |s|
  {
    if s != [] {
      PlainGrows(buf + LabelBytes(Prefix(s)), Suffix(s));
    }
  }

  /** Fewer bytes are read than n. */
  predicate Shorter(r: Run, n: nat) {
    r.Whole? && |Join(r.labels)| < n
  }

  /** The decoder stops at an empty label, or before a dot at the end, and has less than was written. */
  lemma {:induction false} StopsShort(buf: bytes, s: Name)
    requires !WellFormed(s) && NoLong(s)
    ensures Shorter(RunAt(PutPlainName(buf, s), |buf|), |s|)
    decreases |s|
  {
    var text, rest := Prefix(s), Suffix(s);
    if text == [] {
      EmptyLabel(buf, rest);
    } else {
      DotFound(s);
      if rest != [] {
        StopsShort(buf + LabelBytes(text), rest);
      }
      FirstLabel(buf, text, rest);
    }
  }

  lemma EmptyLabel(buf: bytes, rest: Name)
    ensures RunAt(PutPlainName(buf + LabelBytes([]), rest), |buf|) == Whole([], |buf| + 1)
  {
    PlainGrows(buf + LabelBytes([]), rest);
    LabelFound(buf, [], PutPlainName(buf + LabelBytes([]), rest));
  }

  lemma FirstLabel(buf: bytes, text: bytes, rest: Name)
    requires 1 <= |text| <= MAX_LABEL
    requires var next := buf + LabelBytes(text); rest == [] || Shorter(RunAt(PutPlainName(next, rest), |next|), |rest|)
    ensures Shorter(RunAt(PutPlainName(buf + LabelBytes(text), rest), |buf|), |text| + 1 + |rest|)
  {
    var next := buf + LabelBytes(text);
    PlainGrows(next, rest);
    if rest == [] {
      ZeroEnds(next);
    }
    LabelThen(buf, text, PutPlainName(next, rest), |rest|);
  }

  lemma ZeroEnds(buf: bytes)
    ensures RunAt(PutPlainName(buf, []), |buf|) == Whole([], |buf| + 1)
  {
  }

  /** One label more than what is found after it. */
  lemma LabelThen(buf: bytes, text: bytes, more: bytes, n: nat)
    requires 1 <= |text| <= MAX_LABEL && buf + LabelBytes(text) <= more
    requires var r := RunAt(more, |buf + LabelBytes(text)|); (r.Whole? && r.labels == []) || Shorter(r, n)
    ensures Shorter(RunAt(more, |buf|), |text| + 1 + n)
  {
    LabelFound(buf, text, more);
    JoinedSize(text, RunAt(more, |buf| + 1 + |text|).labels, n);
  }

  /** Then there is a dot after the first label, and what follows it is at fault. */
  lemma DotFound(s: Name)
    requires !WellFormed(s) && NoLong(s) && Prefix(s) != []
    ensures |s| == |Prefix(s)| + 1 + |Suffix(s)| && |Prefix(s)| <= MAX_LABEL
    ensures Suffix(s) != [] ==> !WellFormed(Suffix(s)) && NoLong(Suffix(s))
  {
    if FirstDot(s) == |s| {
      OneLabelIsWellFormed(s);
      assert false;
    }
  }

  lemma OneLabelIsWellFormed(s: Name)
    requires 1 <= FirstDot(s) == |s| <= MAX_LABEL
    ensures WellFormed(s)
  {
    assert Suffix(s) == [];
    assert WellFormed([]);
  }

  lemma JoinedSize(text: bytes, labels: seq<bytes>, n: nat)
    requires labels == [] || |Join(labels)| < n
    ensures |Join([text] + labels)| < |text| + 1 + n
  {
    assert ([text] + labels)[1..] == labels;
  }

  /** Written where there is nothing to point back to, a text is read back by the decoder exactly
      when it is well formed. */
  lemma SurvivesIff(buf: bytes, s: Name)
    ensures var p := ParseName(OneHop, PutName(Enc(buf, map[]), s).buf, |buf|);
            p.Done? && p.value == s <==> WellFormed(s)
  {
    var more := PutPlainName(buf, s);
    var w := ReadLabels(more, Cursor(|buf|, 0));
    FreshIsPlain(Enc(buf, map[]), s);
    if WellFormed(s) {
      PlainNameParses(OneHop, buf, s, more);
    } else if NoLong(s) {
      StopsShort(buf, s);
      WalkIsTwoRuns(more, |buf|);
    } else if w.Walk? && Join(w.labels) == s {
      FoundSizes(more, Cursor(|buf|, 0));
      var i := LongStretch(s);
      DotsOften(w.labels, i);
      assert false;
    }
  }

  /** The texts `a.` and `a..b` are not. */
  lemma DottedTexts()
    ensures !WellFormed([97, DOT]) && !WellFormed([97, DOT, DOT, 98])
  {
    var s: Name, t: Name := [97, DOT], [97, DOT, DOT, 98];
    assert DotFrom(s, 1) == 1 && DotFrom(t, 1) == 1;
    assert Suffix(t) == [DOT, 98];
    assert DotFrom(Suffix(t), 0) == 0;
  }
}
