/** The table of failed handshakes: exponential lock-out per address, capped in time and in
    size. Times are in seconds. */
module HandshakeBackoff {

  const FREE_FAILURES: nat := 5
  const LONGEST: real := 60.0
  const IDLE_LIMIT: real := 600.0
  const TABLE_LIMIT: nat := 1000

  datatype Entry = Entry(fails: nat, lockedUntil: real, last: real)

  type Table = map<string, Entry>

  function Pow2(n: nat): nat { if n == 0 then 1 else 2 * Pow2(n - 1) }

  /** The exponent at which a power of two no longer fits a 64-bit float, and computing it raises. */
  const EXPONENT_LIMIT: nat := 1024

  /** How long the address is locked out after its n-th failure in a row. */
  function Backoff(fails: nat): real {
    if fails < FREE_FAILURES then 0.0
    else if Pow2(fails - FREE_FAILURES) as real < LONGEST then Pow2(fails - FREE_FAILURES) as real
    else LONGEST
  }

  function Failed(t: Table, key: string, now: real): Entry {
    var fails := (if key in t then t[key].fails else 0) + 1;
    Entry(fails, if fails >= FREE_FAILURES then now + Backoff(fails) else 0.0, now)
  }

  /** Idle for ten minutes, or its lock-out is over. */
  predicate Expired(e: Entry, now: real) {
    now - e.last > IDLE_LIMIT || (e.lockedUntil > 0.0 && e.lockedUntil < now)
  }

  function Sweep(t: Table, now: real): Table {
    map k | k in t && !Expired(t[k], now) :: t[k]
  }

  /** Recording this failure raises instead: its power of two is out of range. */
  predicate Overflows(t: Table, key: string) {
    key in t && t[key].fails + 1 >= FREE_FAILURES + EXPONENT_LIMIT
  }

  predicate Full(t: Table, key: string) { |t| >= TABLE_LIMIT && key !in t }

  /** `record_failed_handshake`; `victim` is the entry that makes room when the table is full. */
  function Record(t: Table, key: string, now: real, victim: string): Table {
    if Overflows(t, key) then t
    else
      var roomy := if Full(t, key) then t - {victim} else t;
      Sweep(roomy[key := Failed(t, key, now)], now)
  }

  predicate Oldest(t: Table, k: string) {
    k in t && forall g :: g in t ==> t[k].last <= t[g].last
  }

  /** The test at the start of `server_handshake`. */
  predicate Blocked(t: Table, key: string, now: real) {
    key in t && t[key].lockedUntil > now
  }

  class Failures {
    var table: Table

    /** `record_failed_handshake`: one of the oldest entries makes room, and the table stays
        within its limit. */
    method RecordFailure(key: string, now: real) returns (raised: bool, ghost victim: string)
      requires now > 0.0 && |table| <= TABLE_LIMIT
      modifies this
      ensures table == Record(old(table), key, now, victim)
      ensures Full(old(table), key) ==> Oldest(old(table), victim)
      ensures |table| <= 1000 && (raised <==> key in old(table) && old(table)[key].fails >= 1028)
    {
      victim, raised := "", false;
      var fails := if key in table then table[key].fails else 0;
      fails := fails + 1;
      var lockedUntil := 0.0;
      if fails >= FREE_FAILURES {
        if fails - FREE_FAILURES >= EXPONENT_LIMIT { return true, victim; }
        var power := Pow2(fails - FREE_FAILURES) as real;
        lockedUntil := now + if power < LONGEST then power else LONGEST;
      }
      var failed := Entry(fails, lockedUntil, now);
      assert failed == Failed(table, key, now);
      victim := MakeRoom(key);
      Insertion(table, key, failed);
      SweepShrinks(table[key := failed], now);
      table := Sweep(table[key := failed], now);
    }

    method MakeRoom(key: string) returns (ghost victim: string)
      requires |table| <= TABLE_LIMIT
      modifies this
      ensures table == if Full(old(table), key) then old(table) - {victim} else old(table)
      ensures Full(old(table), key) ==> Oldest(old(table), victim)
      ensures |table| < TABLE_LIMIT || (key in table && |table| == TABLE_LIMIT)
    {
      victim := "";
      if |table| >= TABLE_LIMIT && key !in table {
        var oldest := OldestKey();
        victim := oldest;
        Removal(table, oldest);
        table := table - {oldest};
      }
    }

    method OldestKey() returns (k: string)
      requires |table| > 0
      ensures Oldest(table, k)
    {
      var rest := table.Keys;
      assert |table.Keys| == |table|;
      k :| k in rest;
      rest := rest - {k};
      while rest != {}
        invariant k in table && rest <= table.Keys
        invariant forall g :: g in table && g !in rest ==> table[k].last <= table[g].last
        decreases rest
      {
        var g :| g in rest;
        rest := rest - {g};
        if table[g].last < table[k].last { k := g; }
      }
    }

    /** After a successful handshake the address starts afresh. */
    method Forget(key: string)
      modifies this
      ensures table == old(table) - {key}
    {
      table := table - {key};
    }
  }

  lemma Removal(t: Table, k: string)
    requires k in t
    ensures |t - {k}| == |t| - 1
  {
    assert (t - {k}).Keys == t.Keys - {k};
    assert |t.Keys| == |t| && |(t - {k}).Keys| == |t - {k}|;
  }

  lemma RemovalShrinks(t: Table, k: string)
    ensures |t - {k}| <= |t|
  {
    if k in t { Removal(t, k); } else { assert t - {k} == t; }
  }

  lemma Insertion(t: Table, k: string, e: Entry)
    ensures |t[k := e]| == |t| + if k in t then 0 else 1
  {
    assert t[k := e].Keys == t.Keys + {k};
    assert |t.Keys| == |t| && |t[k := e].Keys| == |t[k := e]|;
  }

  lemma SubsetSize<T>(a: set<T>, b: set<T>)
    requires a <= b
    ensures |a| <= |b|
  {
    assert b == a + (b - a);
  }

  lemma SweepShrinks(t: Table, now: real)
    ensures |Sweep(t, now)| <= |t|
  {
    SubsetSize(Sweep(t, now).Keys, t.Keys);
    assert |t.Keys| == |t| && |Sweep(t, now).Keys| == |Sweep(t, now)|;
  }

  lemma {:induction false} Pow2Grows(n: nat)
    ensures Pow2(n) >= 1
    ensures n >= 6 ==> Pow2(n) >= 64
  {
    if n > 0 { Pow2Grows(n - 1); }
  }

  /** What one recorded failure does: the address itself is always in the table, and is blocked
      from its fifth failure on, for one second doubling up to sixty; any other address's entry is
      kept as it was exactly when it has not expired and did not make room. */
  lemma RecordMeaning(t: Table, key: string, now: real, victim: string, other: string)
    requires now > 0.0 && other != key && !Overflows(t, key)
    ensures var v := Record(t, key, now, victim);
            && key in v && v[key] == Failed(t, key, now)
            && (Blocked(v, key, now) <==> v[key].fails >= 5)
            && (forall later :: later >= now ==> (Blocked(v, key, later) <==> later < now + Backoff(v[key].fails)))
            && (other in v <==> other in t && now - t[other].last <= 600.0 && !(0.0 < t[other].lockedUntil < now)
                                && !(|t| >= 1000 && key !in t && other == victim))
            && (other in v ==> v[other] == t[other])
  {
    var fails := Failed(t, key, now).fails;
    if fails >= FREE_FAILURES {
      Pow2Grows(fails - FREE_FAILURES);
    }
  }

  /** The longest lock-out is reached at the eleventh failure and is never exceeded. */
  lemma BackoffIsCapped(fails: nat)
    ensures 0.0 <= Backoff(fails) <= 60.0 && (Backoff(fails) == 0.0 <==> fails < 5)
    ensures Backoff(5) == 1.0
    ensures fails >= 11 ==> Backoff(fails) == 60.0
    ensures 5 <= fails < 10 ==> Backoff(fails + 1) == 2.0 * Backoff(fails)
  {
    if fails >= 11 {
      Pow2Grows(fails - FREE_FAILURES);
    } else if fails >= FREE_FAILURES {
      assert Pow2(0) == 1 && Pow2(1) == 2 && Pow2(2) == 4 && Pow2(3) == 8 && Pow2(4) == 16 && Pow2(5) == 32;
    }
  }

  /** The failures of one address, at these times. */
  function RecordAll(t: Table, key: string, times: seq<real>, victim: string): Table
    decreases |times|
  {
    if |times| == 0 then t
    else Record(RecordAll(t, key, times[..|times| - 1], victim), key, times[|times| - 1], victim)
  }

  const MOST_FAILURES: nat := FREE_FAILURES + EXPONENT_LIMIT - 1

  /** Failures of one address alone escalate whatever the pauses between them: the n-th finds
      n - 1 recorded, because its own entry is swept only by another address's failure. After
      1028 of them recording fails, and the entry no longer changes. */
  lemma {:induction false} AloneEscalates(key: string, times: seq<real>, victim: string)
    requires |times| > 0 && forall i :: 0 <= i < |times| ==> times[i] > 0.0
    ensures var n := if |times| < MOST_FAILURES then |times| else MOST_FAILURES;
            RecordAll(map[], key, times, victim) == map[key := Nth(n, times[n - 1])]
    decreases |times|
  {
    var last := |times| - 1;
    var before := RecordAll(map[], key, times[..last], victim);
    if last > 0 {
      AloneEscalates(key, times[..last], victim);
    }
    if last < MOST_FAILURES {
      AloneStep(before, key, times[last], victim);
    }
  }

  /** The entry after the n-th failure in a row. */
  function Nth(n: nat, now: real): Entry {
    Entry(n, if n >= FREE_FAILURES then now + Backoff(n) else 0.0, now)
  }

  lemma AloneStep(t: Table, key: string, now: real, victim: string)
    requires t.Keys <= {key} && now > 0.0 && !Overflows(t, key)
    ensures Record(t, key, now, victim) == map[key := Failed(t, key, now)]
  {
    SubsetSize(t.Keys, {key});
    assert |t.Keys| == |t|;
    var failed := Failed(t, key, now);
    if failed.fails >= FREE_FAILURES {
      Pow2Grows(failed.fails - FREE_FAILURES);
    }
    var v := Sweep(t[key := failed], now);
    assert v.Keys == {key} && v[key] == failed;
    assert v == map[key := failed];
  }

  /** The cap on the lock-out is therefore kept up to the 1028th failure and no further: a failure
      leaves the address blocked exactly when it is at least the fifth and can be recorded, or an
      earlier lock-out still runs. */
  lemma BlockedAfterFailure(t: Table, key: string, now: real, victim: string)
    requires now > 0.0
    ensures Blocked(Record(t, key, now, victim), key, now) <==>
            if Overflows(t, key) then t[key].lockedUntil > now else Failed(t, key, now).fails >= FREE_FAILURES
  {
    if !Overflows(t, key) {
      RecordMeaning(t, key, now, victim, key + "'");
    }
  }

  /** But a failure of another address after the lock-out is over wipes the count, so that the
      next one starts again from one. */
  lemma OthersReset(t: Table, key: string, other: string, now: real, later: real, victim: string)
    requires key in t && key != other && 0.0 < t[key].lockedUntil < now <= later && !Overflows(t, other)
    ensures var v := Record(Record(t, other, now, victim), key, later, victim);
            key in v && v[key].fails == 1 && !Blocked(v, key, later)
  {
    RecordMeaning(t, other, now, victim, key);
    RecordMeaning(Record(t, other, now, victim), key, later, victim, other);
  }
}
