/** What holds of the decoder on every byte string, well formed or not. */
module DnsBounds {
  import opened Bytes
  import opened DnsNames
  import opened DnsMessage
  import opened DnsDecode

  /* ---- the cursor on any bytes at all ---- */

  /** The labels in place from an offset on, up to a zero byte, a pointer, or the end of the buffer. */
  datatype Run =
    | Whole(labels: seq<bytes>, end: nat)
    | Pointed(labels: seq<bytes>, target: nat, end: nat)
    // cut off within a pointer, or before
    | HalfPointer
    | Cut
  {
    function After(text: bytes): Run {
      match this
      case Whole(ls, end) => Whole([text] + ls, end)
      case Pointed(ls, target, end) => Pointed([text] + ls, target, end)
      case HalfPointer => HalfPointer
      case Cut => Cut
    }
  }

  function RunAt(buf: bytes, pos: nat): Run
    decreases |buf| - pos
  {
    if pos >= |buf| then Cut
    else
      var length := buf[pos];
      if length == 0 then Whole([], pos + 1)
      else if IsPointer(length) then
        if pos + 1 >= |buf| then HalfPointer else Pointed([], PointerTarget(buf, pos), pos + 2)
      else if pos + 1 + length > |buf| then Cut
      else RunAt(buf, pos + 1 + length).After(buf[pos + 1..pos + 1 + length])
  }

  /** After a jump only one run is left, and it must not end in a pointer, whole or cut off. */
  lemma {:induction false} MarkedWalk(buf: bytes, pos: nat, mark: nat)
    requires mark != 0
    ensures ReadLabels(buf, Cursor(pos, mark)) ==
            match RunAt(buf, pos)
            case Whole(labels, _) => Walk(labels, Cursor(mark, 0))
            case Pointed(_, _, _) => WalkFail(RecursivePointer)
            case HalfPointer => WalkFail(RecursivePointer)
            case Cut => WalkFail(NotEnoughData)
    decreases |buf| - pos
  {
    if pos < |buf| && 0 < buf[pos] <= MAX_LABEL && pos + 1 + buf[pos] <= |buf| {
      StepTaken(buf, Cursor(pos, mark));
      MarkedWalk(buf, pos + 1 + buf[pos], mark);
    }
  }

  /** On every byte string and from every offset, a name is the labels in place and, after a
      pointer in whatever direction, the labels in place at its target. */
  lemma {:induction false} WalkIsTwoRuns(buf: bytes, pos: nat)
    ensures ReadLabels(buf, Cursor(pos, 0)) ==
            match RunAt(buf, pos)
            case Whole(labels, end) => Walk(labels, Cursor(end, 0))
            case Pointed(labels, target, end) => SecondRun(labels, RunAt(buf, target), end)
            case HalfPointer => WalkFail(NotEnoughData)
            case Cut => WalkFail(NotEnoughData)
    decreases |buf| - pos
  {
    if pos < |buf| && IsPointer(buf[pos]) && pos + 1 < |buf| {
      JumpTaken(buf, pos);
      MarkedWalk(buf, PointerTarget(buf, pos), pos + 2);
      NothingBefore(RunAt(buf, PointerTarget(buf, pos)));
    } else if pos < |buf| && 0 < buf[pos] <= MAX_LABEL && pos + 1 + buf[pos] <= |buf| {
      var next, text := pos + 1 + buf[pos], buf[pos + 1..pos + 1 + buf[pos]];
      StepTaken(buf, Cursor(pos, 0));
      WalkIsTwoRuns(buf, next);
      if RunAt(buf, next).Pointed? {
        LabelBefore(text, RunAt(buf, next).labels, RunAt(buf, RunAt(buf, next).target), RunAt(buf, next).end);
      }
    }
  }

  function SecondRun(labels: seq<bytes>, second: Run, end: nat): Walk {
    match second
    case Whole(more, _) => Walk(labels + more, Cursor(end, 0))
    case Pointed(_, _, _) => WalkFail(RecursivePointer)
    case HalfPointer => WalkFail(RecursivePointer)
    case Cut => WalkFail(NotEnoughData)
  }

  lemma NothingBefore(second: Run)
    ensures second.Whole? ==> [] + second.labels == second.labels
  {
  }

  lemma LabelBefore(text: bytes, labels: seq<bytes>, second: Run, end: nat)
    ensures SecondRun(labels, second, end).After([text]) == SecondRun([text] + labels, second, end)
  {
    if second.Whole? {
      assert [text] + (labels + second.labels) == [text] + labels + second.labels;
    }
  }

  /* ---- sizes ---- */

  /** Bytes a run of labels takes on the wire, its end aside. */
  function Weight(labels: seq<bytes>): nat {
    if labels == [] then 0 else |labels[0]| + 1 + Weight(labels[1..])
  }

  lemma {:induction false} JoinLength(labels: seq<bytes>)
    ensures |Join(labels)| <= Weight(labels)
  {
    if |labels| > 1 {
      JoinLength(labels[1..]);
    }
  }

  /** A name that can be read leaves no jump pending and the cursor just past the bytes of the
      name in place, or where the jump into it came from; its labels fit in the bytes from the
      cursor on and, if a jump is left, in those from the pointer's target on. */
  lemma {:induction false} NameExtent(buf: bytes, c: Cursor)
    requires ReadLabels(buf, c).Walk?
    ensures var r := ReadLabels(buf, c);
            && c.pos < WireEnd(buf, c.pos) <= |buf|
            && r.cursor == Cursor(if c.mark == 0 then WireEnd(buf, c.pos) else c.mark, 0)
            && Weight(r.labels) <= |buf| - c.pos + (if c.mark == 0 then |buf| else 0)
            && (r.labels != [] ==> WireEnd(buf, c.pos) >= c.pos + 2)
    decreases JumpsLeft(c), |buf| - c.pos
  {
    var length := buf[c.pos];
    if length == 0 {
    } else if IsPointer(length) {
      var target := Cursor(PointerTarget(buf, c.pos), c.pos + 2);
      assert ReadLabel(buf, c) == ReadLabel(buf, target);
      assert ReadLabels(buf, c) == ReadLabels(buf, target);
      NameExtent(buf, target);
    } else {
      var text, next := buf[c.pos + 1..c.pos + 1 + length], Cursor(c.pos + 1 + length, c.mark);
      assert ReadLabel(buf, c) == Step(text, next);
      NameExtent(buf, next);
      ConsWeight(text, ReadLabels(buf, next).labels);
    }
  }

  lemma ConsWeight(text: bytes, rest: seq<bytes>)
    ensures Weight([text] + rest) == |text| + 1 + Weight(rest)
  {
    assert ([text] + rest)[1..] == rest;
  }

  /** The decoded name is never longer than twice the message. */
  lemma NameBounds(buf: bytes, pos: nat)
    requires ParseName(OneHop, buf, pos).Done?
    ensures var r := ParseName(OneHop, buf, pos);
            && pos < r.next == WireEnd(buf, pos) <= |buf|
            && |r.value| <= 2 * |buf|
            && (r.value != [] ==> r.next >= pos + 2)
  {
    NameExtent(buf, Cursor(pos, 0));
    JoinLength(ReadLabels(buf, Cursor(pos, 0)).labels);
  }

  lemma {:induction false} QuestsBounds(buf: bytes, pos: nat, n: nat)
    requires ParseQuests(OneHop, buf, pos, n).Done? && pos <= |buf|
    ensures var r := ParseQuests(OneHop, buf, pos, n);
            |r.value| == n && pos + 6 * n <= r.next <= |buf|
    decreases n
  {
    if n > 0 {
      NameBounds(buf, pos);
      QuestsBounds(buf, ParseQuest(OneHop, buf, pos).next, n - 1);
    }
  }

  lemma {:induction false} RecordsBounds(buf: bytes, pos: nat, n: nat)
    requires ParseRecords(OneHop, buf, pos, n).Done? && pos <= |buf|
    ensures var r := ParseRecords(OneHop, buf, pos, n);
            |r.value| == n && pos + 11 * n <= r.next <= |buf|
    decreases n
  {
    if n > 0 {
      NameBounds(buf, pos);
      RecordsBounds(buf, ParseRecord(OneHop, buf, pos).next, n - 1);
    }
  }

  /** An accepted message has room for all it was found to hold. */
  lemma AcceptedSize(buf: bytes)
    requires ParseMessage(OneHop, buf).Done?
    ensures var d := ParseMessage(OneHop, buf).value;
            && |d.quests| == d.header.quests && |d.answers| == d.header.answers && |d.records| == d.header.records
            && 12 + 6 * |d.quests| + 11 * (|d.answers| + |d.records|) <= ParseMessage(OneHop, buf).next <= |buf|
  {
    var h := ReadHeader(buf);
    QuestsBounds(buf, 12, h.quests);
    var p1 := ParseQuests(OneHop, buf, 12, h.quests).next;
    RecordsBounds(buf, p1, h.answers);
    RecordsBounds(buf, ParseRecords(OneHop, buf, p1, h.answers).next, h.records);
  }
}
