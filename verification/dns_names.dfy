/** Domain names as dot-separated text, and the meaning of their wire form.

    `RfcRead` is the reference reading of a name at an offset: section 4.1.4 of RFC 1035, with
    any number of pointers. `Read` is the same with labels as long as a length byte that is not a
    pointer can say. Neither knows anything of the encoder's table or the decoder's cursor. */
module DnsNames {
  import opened Bytes

  type Name = bytes

  const DOT: byte := 46

  /* ---- text form ---- */

  /** Index of the first dot, or the length if there is none. */
  function FirstDot(s: Name): (i: nat)
    ensures i <= |s|
    ensures i < |s| ==> s[i] == DOT
  {
    DotFrom(s, 0)
  }

  function DotFrom(s: Name, from: nat): (i: nat)
    requires from <= |s|
    decreases |s| - from
    ensures from <= i <= |s|
    ensures i < |s| ==> s[i] == DOT
  {
    if from == |s| || s[from] == DOT then from else DotFrom(s, from + 1)
  }

  // The two halves of strings.Cut(s, ".").
  function Prefix(s: Name): bytes {
    s[..FirstDot(s)]
  }

  function Suffix(s: Name): (t: Name)
    ensures |t| <= |s|
    ensures s != [] ==> |t| < |s|
  {
    if FirstDot(s) < |s| then s[FirstDot(s) + 1..] else []
  }

  function Labels(s: Name): seq<bytes>
    decreases |s|
  {
    if s == [] then [] else [Prefix(s)] + Labels(Suffix(s))
  }

  function Join(labels: seq<bytes>): Name {
    if |labels| == 0 then []
    else if |labels| == 1 then labels[0]
    else labels[0] + [DOT] + Join(labels[1..])
  }

  /** The longest label whose length byte is not taken for a pointer. */
  const MAX_LABEL := 191

  /** Nonempty labels within that length, and no dot left over at the end. */
  predicate WellFormed(s: Name)
    decreases |s|
  {
    s == [] ||
    (1 <= FirstDot(s) <= MAX_LABEL && FirstDot(s) != |s| - 1 && WellFormed(Suffix(s)))
  }

  /** Section 2.3.4 of RFC 1035: labels of 63 bytes or less. */
  predicate RfcLabels(labels: seq<bytes>) {
    forall i :: 0 <= i < |labels| ==> |labels[i]| <= 63
  }

  /** The text of a well-formed name is its labels with dots between them. */
  lemma {:induction false} JoinLabels(s: Name)
    requires WellFormed(s)
    ensures Join(Labels(s)) == s
    decreases |s|
  {
    if s != [] {
      if FirstDot(s) < |s| {
        CutAtDot(s);
        JoinLabels(Suffix(s));
        JoinCons(Prefix(s), Labels(Suffix(s)));
      } else {
        LastLabel(s);
      }
    }
  }

  lemma CutAtDot(s: Name)
    requires FirstDot(s) < |s|
    ensures s == Prefix(s) + [DOT] + Suffix(s)
  {
  }

  lemma LastLabel(s: Name)
    requires s != [] && FirstDot(s) == |s|
    ensures Labels(s) == [s]
  {
    assert Suffix(s) == [];
    assert Labels(Suffix(s)) == [];
    assert Prefix(s) == s;
  }

  lemma JoinCons(first: bytes, rest: seq<bytes>)
    requires rest != []
    ensures Join([first] + rest) == first + [DOT] + Join(rest)
  {
    assert ([first] + rest)[1..] == rest;
  }

  lemma {:induction false} JoinSnoc(labels: seq<bytes>, last: bytes)
    ensures Join(labels + [last]) == if labels == [] then last else Join(labels) + [DOT] + last
  {
    if |labels| >= 2 {
      assert (labels + [last])[1..] == labels[1..] + [last];
      JoinSnoc(labels[1..], last);
    } else if |labels| == 1 {
      assert (labels + [last])[1..] == [last];
    }
  }

  /* ---- reference reading ---- */

  datatype Reading =
    | Unreadable
    // hops: how many pointers were followed
    | Reading(labels: seq<bytes>, hops: nat)

  /** The two top bits are set. */
  predicate IsPointer(length: byte) {
    length >= 0xC0
  }

  function PointerTarget(buf: bytes, pos: nat): nat
    requires pos + 1 < |buf| && IsPointer(buf[pos])
  {
    Word2(buf[pos] - 0xC0, buf[pos + 1])
  }

  /** The name at pos. A pointer refers to a prior occurrence of the rest of the name, so it
      must lead below `limit`, the start of the run of labels it ends. */
  function Read(buf: bytes, pos: nat, limit: nat): Reading
    decreases limit, |buf| - pos
  {
    if pos >= |buf| then Unreadable
    else
      var length := buf[pos];
      if length == 0 then Reading([], 0)
      else if IsPointer(length) then
        if pos + 1 >= |buf| then Unreadable
        else
          var target := PointerTarget(buf, pos);
          if target >= limit then Unreadable
          else
            match Read(buf, target, target)
            case Unreadable => Unreadable
            case Reading(labels, hops) => Reading(labels, hops + 1)
      else if pos + 1 + length > |buf| then Unreadable
      else
        match Read(buf, pos + 1 + length, limit)
        case Unreadable => Unreadable
        case Reading(labels, hops) => Reading([buf[pos + 1..pos + 1 + length]] + labels, hops)
  }

  function RfcRead(buf: bytes, pos: nat, limit: nat): Reading {
    match Read(buf, pos, limit)
    case Unreadable => Unreadable
    case Reading(labels, hops) => if RfcLabels(labels) then Reading(labels, hops) else Unreadable
  }

  /** What is readable stays readable, with the same meaning, whatever is appended, and however
      much further back its pointers would have been allowed to start. */
  lemma {:induction false} ReadStable(buf: bytes, more: bytes, pos: nat, limit: nat, limit': nat)
    requires buf <= more && limit <= limit'
    requires Read(buf, pos, limit).Reading?
    ensures Read(more, pos, limit') == Read(buf, pos, limit)
    decreases limit, |buf| - pos
  {
    var length := buf[pos];
    if length == 0 {
    } else if IsPointer(length) {
      var target := PointerTarget(buf, pos);
      ReadStable(buf, more, target, target, target);
    } else {
      ReadStable(buf, more, pos + 1 + length, limit, limit');
      assert buf[pos + 1..pos + 1 + length] == more[pos + 1..pos + 1 + length];
    }
  }

  /** First offset after the bytes a name occupies in place: past its zero byte or its pointer. */
  function WireEnd(buf: bytes, pos: nat): (end: nat)
    decreases |buf| - pos
    ensures end >= pos
    ensures pos < |buf| ==> end > pos
  {
    if pos >= |buf| then pos
    else if buf[pos] == 0 then pos + 1
    else if IsPointer(buf[pos]) then pos + 2
    else WireEnd(buf, pos + 1 + buf[pos])
  }

  lemma {:induction false} WireEndStable(buf: bytes, more: bytes, pos: nat, limit: nat)
    requires buf <= more
    requires Read(buf, pos, limit).Reading?
    ensures pos < WireEnd(buf, pos) <= |buf|
    ensures WireEnd(more, pos) == WireEnd(buf, pos)
    decreases |buf| - pos
  {
    if buf[pos] != 0 && !IsPointer(buf[pos]) {
      WireEndStable(buf, more, pos + 1 + buf[pos], limit);
    }
  }
}
