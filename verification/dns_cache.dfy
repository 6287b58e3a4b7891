/** The address cache: entries with a lifetime, aged by a 64-bit clock in 32-bit seconds. */
module DnsCache {
  import opened Bytes
  import opened DnsNames
  import opened DnsMessage

  type i64 = v: int | -0x8000_0000_0000_0000 <= v < 0x8000_0000_0000_0000

  function Wrap64(v: int): i64 {
    (v + 0x8000_0000_0000_0000) % WORD64 - 0x8000_0000_0000_0000
  }

  // ts: when the entry was saved. ttl: its lifetime. Both in seconds.
  datatype Entry = Entry(list: seq<Addr>, ts: i64, ttl: u32)

  type Entries = map<Name, Entry>

  datatype Found = Found(list: seq<Addr>, ttl: u32)

  const MISS := Found([], 0)

  function Lookup(m: Entries, name: Name, now: i64): Found {
    if name !in m then MISS
    else
      var e := m[name];
      if Wrap64(now - e.ttl) >= e.ts then MISS
      else Found(e.list, (e.ttl - (now - e.ts) % WORD32) % WORD32)
  }

  class Cache {
    var m: Entries

    constructor ()
      ensures m == map[]
    {
      m := map[];
    }

    method Set(name: Name, entry: Entry)
      modifies this
      ensures m == old(m)[name := entry]
    {
      m := m[name := entry];
    }

    method Get(name: Name, now: i64) returns (list: seq<Addr>, ttl: u32)
      ensures Found(list, ttl) == Lookup(m, name, now)
    {
      if name !in m {
        return [], 0;
      }
      var entry := m[name];
      if Wrap64(now - entry.ttl) >= entry.ts {
        return [], 0;
      }
      return entry.list, (entry.ttl - (now - entry.ts) % WORD32) % WORD32;
    }
  }

  /* ---- runs ---- */

  datatype Op = Set(name: Name, entry: Entry) | Get(queried: Name, now: i64)

  function After(m: Entries, ops: seq<Op>): Entries
    decreases |ops|
  {
    if ops == [] then m
    else After(if ops[0].Set? then m[ops[0].name := ops[0].entry] else m, ops[1..])
  }

  datatype Last = Never | Last(entry: Entry)

  /** The entry of the last Set of a name. */
  function LastSet(ops: seq<Op>, name: Name): Last
    decreases |ops|
  {
    if ops == [] then Never
    else
      var op := ops[|ops| - 1];
      if op.Set? && op.name == name then Last(op.entry) else LastSet(ops[..|ops| - 1], name)
  }

  lemma {:induction false} AfterSnoc(m: Entries, ops: seq<Op>, op: Op)
    ensures After(m, ops + [op]) ==
            if op.Set? then After(m, ops)[op.name := op.entry] else After(m, ops)
    decreases |ops|
  {
    if ops == [] {
      assert (ops + [op])[1..] == [];
    } else {
      assert (ops + [op])[1..] == ops[1..] + [op];
      AfterSnoc(if ops[0].Set? then m[ops[0].name := ops[0].entry] else m, ops[1..], op);
    }
  }

  lemma {:induction false} HoldsLastSet(ops: seq<Op>, name: Name)
    ensures var m := After(map[], ops);
            if LastSet(ops, name).Never? then name !in m else name in m && m[name] == LastSet(ops, name).entry
    decreases |ops|
  {
    if ops != [] {
      var n := |ops| - 1;
      assert ops == ops[..n] + [ops[n]];
      AfterSnoc(map[], ops[..n], ops[n]);
      HoldsLastSet(ops[..n], name);
    }
  }

  /** What is left of an entry's lifetime. */
  function Left(e: Entry, now: i64): int {
    e.ts + e.ttl - now
  }

  /** The answer an entry calls for: its list with what is left, or nothing once none is. */
  predicate Tells(f: Found, e: Entry, now: i64) {
    if Left(e, now) <= 0 then f == MISS else f == Found(e.list, f.ttl) && f.ttl == Left(e, now)
  }

  /** Subtracting the lifetime from the clock does not pass the least 64-bit integer. */
  predicate InRange(e: Entry, now: i64) {
    now - e.ttl >= -0x8000_0000_0000_0000
  }

  /** The answer for every entry and every clock, right or wrong. */
  lemma LookupIs(m: Entries, name: Name, now: i64)
    requires name in m
    ensures var e := m[name];
            var expired := if InRange(e, now) then Left(e, now) <= 0 else Left(e, now) <= WORD64;
            Lookup(m, name, now) == if expired then MISS else Found(e.list, Left(e, now) % WORD32)
  {
    var e := m[name];
    WrapIs(now - e.ttl);
    ModOfDifference(e.ttl, now - e.ts);
  }

  lemma WrapIs(v: int)
    requires -0x8000_0000_0000_0000 - WORD32 < v < 0x8000_0000_0000_0000
    ensures Wrap64(v) == if v >= -0x8000_0000_0000_0000 then v else v + WORD64
  {
  }

  lemma ModOfDifference(a: int, b: int)
    ensures (a - b % WORD32) % WORD32 == (a - b) % WORD32
  {
    assert b == WORD32 * (b / WORD32) + b % WORD32;
    assert (a - b % WORD32) % WORD32 == (a - b + WORD32 * (b / WORD32)) % WORD32;
  }

  /** After any run a name is answered from its last Set; and the answer is the right one exactly
      when nothing is left, or what is left fits 32 bits and no subtraction wraps. */
  lemma GetFollowsLastSet(ops: seq<Op>, name: Name, now: i64)
    ensures var f := Lookup(After(map[], ops), name, now);
            match LastSet(ops, name)
            case Never => f == MISS
            case Last(e) => Tells(f, e, now) <==> Left(e, now) <= 0 || (Left(e, now) < WORD32 && InRange(e, now))
  {
    HoldsLastSet(ops, name);
    if LastSet(ops, name).Last? {
      LookupIs(After(map[], ops), name, now);
    }
  }

  /** What is left is then within the lifetime exactly when the clock has not been set back to
      before the entry was saved. */
  lemma WithinLifetime(ops: seq<Op>, name: Name, now: i64)
    requires LastSet(ops, name).Last?
    requires Left(LastSet(ops, name).entry, now) < WORD32 && InRange(LastSet(ops, name).entry, now)
    ensures var e := LastSet(ops, name).entry;
            1 <= Lookup(After(map[], ops), name, now).ttl <= e.ttl <==> e.ts <= now < e.ts + e.ttl
  {
    GetFollowsLastSet(ops, name, now);
  }

  /** What has expired stays expired while its name is not set again, whatever the clock. */
  lemma StaysExpired(ops: seq<Op>, more: seq<Op>, name: Name, now: i64, later: i64)
    requires LastSet(ops + more, name) == LastSet(ops, name)
    requires LastSet(ops, name).Last? ==> Left(LastSet(ops, name).entry, now) <= 0
    requires now <= later
    ensures Lookup(After(map[], ops), name, now) == MISS
    ensures Lookup(After(map[], ops + more), name, later) == MISS
  {
    GetFollowsLastSet(ops, name, now);
    GetFollowsLastSet(ops + more, name, later);
  }

  /** A clock set back by k seconds, to before the entry was saved, adds them to the lifetime,
      modulo 2^32. */
  lemma EarlyClockOutlives(m: Entries, name: Name, k: nat)
    requires name in m && 0 < k && m[name].ts - k - m[name].ttl >= -0x8000_0000_0000_0000
    ensures Lookup(m, name, m[name].ts - k) == Found(m[name].list, (m[name].ttl + k) % WORD32)
    ensures Lookup(m, name, m[name].ts - k).ttl > m[name].ttl <== m[name].ttl + k < WORD32
  {
    LookupIs(m, name, m[name].ts - k);
  }
}
