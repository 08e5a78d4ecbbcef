/** The token bucket that limits cookie replies per source address, with its table kept small by
    dropping entries that have refilled. Times are in seconds. */
module CookieLimiter {

  const CAPACITY: real := 10.0
  const REFILL: real := 5.0
  const TABLE_LIMIT: nat := 1000

  datatype Bucket = Bucket(tokens: real, last: real)

  type Table = map<string, Bucket>

  function Min(a: real, b: real): real { if a < b then a else b }

  /** The tokens an entry is worth at `now`; refilling is lazy. */
  function Effective(b: Bucket, now: real): real {
    Min(CAPACITY, b.tokens + (now - b.last) * REFILL)
  }

  /** What an address has at `now`; one without an entry is full. */
  function Level(t: Table, ip: string, now: real): real {
    if ip in t then Effective(t[ip], now) else CAPACITY
  }

  /** The decision and the charge, on a table that is never pruned. */
  function Charge(t: Table, ip: string, now: real): (Table, bool) {
    var b := if ip in t then t[ip] else Bucket(CAPACITY, now);
    var tokens := Effective(b, now);
    if tokens < 1.0 then (t[ip := Bucket(tokens, now)], false)
    else (t[ip := Bucket(tokens - 1.0, now)], true)
  }

  function Prune(t: Table, now: real): Table {
    map k | k in t && Effective(t[k], now) < CAPACITY :: t[k]
  }

  /** The same with pruning, up to the point where hard eviction would begin. */
  function Allow(t: Table, ip: string, now: real): (Table, bool) {
    var (charged, ok) := Charge(t, ip, now);
    (if ok && |charged| > TABLE_LIMIT then Prune(charged, now) else charged, ok)
  }

  /** Hard eviction: the oldest entries go until the limit is met. */
  ghost predicate Evicted(before: Table, after: Table) {
    && after.Keys <= before.Keys && (forall k :: k in after ==> after[k] == before[k])
    && |after| == TABLE_LIMIT
    && (forall g {:trigger NoneOlder(after, before[g].last)} :: g in before && g !in after ==> NoneOlder(after, before[g].last))
  }

  ghost predicate NoneOlder(t: Table, last: real) { forall k :: k in t ==> last <= t[k].last }

  datatype Request = Request(ip: string, now: real)

  /** What one request may turn the table into: as decided, or evicted down to the limit. */
  ghost predicate Next(t: Table, r: Request, v: Table) {
    var (allowed, ok) := Allow(t, r.ip, r.now);
    if ok && |allowed| > TABLE_LIMIT then Evicted(allowed, v) else v == allowed
  }

  /** The first `n` requests of a run: the table before the first, and after each. */
  ghost predicate RunTo(tables: seq<Table>, requests: seq<Request>, n: nat)
    requires |tables| == |requests| + 1 && n <= |requests|
  {
    tables[0] == map[] && forall i :: 0 <= i < n ==> Answered(tables, requests, i)
  }

  /** Request `i` is answered as it should be. */
  ghost predicate Answered(tables: seq<Table>, requests: seq<Request>, i: nat)
    requires |tables| == |requests| + 1 && i < |requests|
  {
    Next(tables[i], requests[i], tables[i + 1])
  }

  ghost predicate IsRun(tables: seq<Table>, requests: seq<Request>) {
    |tables| == |requests| + 1 && RunTo(tables, requests, |requests|)
  }

  lemma RunLonger(tables: seq<Table>, requests: seq<Request>, r: Request, v: Table, n: nat)
    requires |tables| == |requests| + 1 && n <= |requests| && RunTo(tables, requests, n)
    ensures RunTo(tables + [v], requests + [r], n)
  {
    forall i | 0 <= i < n ensures Answered(tables + [v], requests + [r], i) {
      assert Answered(tables, requests, i);
    }
  }

  lemma RunSnoc(tables: seq<Table>, requests: seq<Request>, r: Request, v: Table)
    requires IsRun(tables, requests) && Next(tables[|requests|], r, v)
    ensures IsRun(tables + [v], requests + [r])
  {
    var n := |requests|;
    RunLonger(tables, requests, r, v, n);
    assert Answered(tables + [v], requests + [r], n) by {
      assert (tables + [v])[n] == tables[n] && (tables + [v])[n + 1] == v && (requests + [r])[n] == r;
    }
  }

  // ---------------------------------------------------------------- the object

  class Limiter {
    var table: Table

    /** Every request so far, and every table there has been. */
    ghost var requests: seq<Request>
    ghost var tables: seq<Table>

    ghost predicate Valid()
      reads this
    {
      IsRun(tables, requests) && table == tables[|requests|] && |table| <= TABLE_LIMIT
    }

    constructor ()
      ensures Valid() && requests == []
    {
      table, requests, tables := map[], [], [map[]];
    }

    /** `_allow_udp_cookie`: what the object does over its life is a run. */
    method AllowUdpCookie(ip: string, now: real) returns (ok: bool)
      requires Valid()
      modifies this
      ensures Valid() && requests == old(requests) + [Request(ip, now)] && tables == old(tables) + [table]
      ensures ok == Allow(old(table), ip, now).1
    {
      ok := Decide(ip, now);
      RunSnoc(tables, requests, Request(ip, now), table);
      requests, tables := requests + [Request(ip, now)], tables + [table];
    }

    method Decide(ip: string, now: real) returns (ok: bool)
      requires |table| <= TABLE_LIMIT
      modifies this`table
      ensures ok == Allow(old(table), ip, now).1 && Next(old(table), Request(ip, now), table) && |table| <= TABLE_LIMIT
    {
      var b := if ip in table then table[ip] else Bucket(CAPACITY, now);
      var tokens := Min(CAPACITY, b.tokens + (now - b.last) * REFILL);
      if tokens < 1.0 {
        DeniedIsKnown(table, ip, now);
        table := table[ip := Bucket(tokens, now)];
        return false;
      }
      table := table[ip := Bucket(tokens - 1.0, now)];
      BoundMemory(now);
      return true;
    }

    /** The pruning after an admitted request. */
    method BoundMemory(now: real)
      modifies this`table
      ensures |table| <= TABLE_LIMIT
      ensures var pruned := if |old(table)| > TABLE_LIMIT then Prune(old(table), now) else old(table);
              if |pruned| <= TABLE_LIMIT then table == pruned else Evicted(pruned, table)
    {
      if |table| > TABLE_LIMIT {
        table := Prune(table, now);
        if |table| > TABLE_LIMIT {
          EvictOldest();
        }
      }
    }

    method EvictOldest()
      requires |table| > TABLE_LIMIT
      modifies this`table
      ensures Evicted(old(table), table)
    {
      while |table| > TABLE_LIMIT
        invariant |table| >= TABLE_LIMIT
        invariant table.Keys <= old(table).Keys && forall k :: k in table ==> table[k] == old(table)[k]
        invariant forall k, g :: k in table && g in old(table) && g !in table ==> old(table)[g].last <= old(table)[k].last
        decreases |table|
      {
        var oldest := Oldest(table);
        MapRemoval(table, oldest);
        table := table - {oldest};
      }
    }
  }

  /** Only an address with an entry is ever denied, so a denial does not grow the table. */
  lemma DeniedIsKnown(t: Table, ip: string, now: real)
    requires !Charge(t, ip, now).1
    ensures ip in t && |Charge(t, ip, now).0| == |t|
  {
    assert Charge(t, ip, now).0.Keys == t.Keys;
    assert |t.Keys| == |t| && |Charge(t, ip, now).0.Keys| == |Charge(t, ip, now).0|;
  }

  lemma MapRemoval<K, V>(m: map<K, V>, k: K)
    requires k in m
    ensures |m - {k}| == |m| - 1
  {
    assert (m - {k}).Keys == m.Keys - {k};
    assert |m.Keys| == |m|;
  }

  method Oldest(t: Table) returns (k: string)
    requires |t| > 0
    ensures k in t && forall g :: g in t ==> t[k].last <= t[g].last
  {
    var rest := t.Keys;
    assert |t.Keys| == |t|;
    k :| k in rest;
    rest := rest - {k};
    while rest != {}
      invariant k in t && rest <= t.Keys
      invariant forall g :: g in t && g !in rest ==> t[k].last <= t[g].last
      decreases rest
    {
      var g :| g in rest;
      rest := rest - {g};
      if t[g].last < t[k].last { k := g; }
    }
  }

  // ---------------------------------------------------------------- levels

  ghost predicate Sound(t: Table, now: real) {
    forall k :: k in t ==> 0.0 <= t[k].tokens <= CAPACITY && t[k].last <= now
  }

  ghost predicate SameLevels(t: Table, u: Table, now: real) {
    forall ip :: Level(t, ip, now) == Level(u, ip, now)
  }

  /** A level grows at the refill rate up to the capacity. */
  lemma LevelGrows(t: Table, ip: string, now: real, later: real)
    requires Sound(t, now) && now <= later
    ensures Level(t, ip, later) == Min(CAPACITY, Level(t, ip, now) + (later - now) * REFILL)
    ensures 0.0 <= Level(t, ip, now) <= CAPACITY
  {}

  /** A request is decided by the level alone, takes one token if allowed, and moves no other
      address's level; pruning moves none. */
  lemma AllowMeaning(t: Table, ip: string, now: real)
    requires Sound(t, now)
    ensures var (v, ok) := Allow(t, ip, now);
            && ok == (Level(t, ip, now) >= 1.0) == Charge(t, ip, now).1
            && Sound(v, now) && Sound(Charge(t, ip, now).0, now)
            && Level(v, ip, now) == Level(t, ip, now) - (if ok then 1.0 else 0.0)
            && (forall other :: other != ip ==> Level(v, other, now) == Level(t, other, now))
            && SameLevels(v, Charge(t, ip, now).0, now)
  {
    var (charged, ok) := Charge(t, ip, now);
    assert Effective(charged[ip], now) == charged[ip].tokens;
    assert forall k :: k in charged && k !in Prune(charged, now) ==> Effective(charged[k], now) == CAPACITY;
  }

  /** The request's hard eviction took this address's entry. */
  predicate Loses(t: Table, r: Request, v: Table, ip: string) {
    ip in Allow(t, r.ip, r.now).0 && ip !in v
  }

  predicate Allowed(t: Table, r: Request) { Allow(t, r.ip, r.now).1 }

  function Cost(t: Table, r: Request, ip: string): nat { if Allowed(t, r) && r.ip == ip then 1 else 0 }

  /** One request takes what it costs from an address's level, unless its entry is evicted: then
      the address is full again. */
  lemma NextMeaning(t: Table, r: Request, v: Table, ip: string)
    requires Sound(t, r.now) && Next(t, r, v)
    ensures Sound(v, r.now)
    ensures Level(v, ip, r.now) == if Loses(t, r, v, ip) then CAPACITY else Level(t, ip, r.now) - Cost(t, r, ip) as real
  {
    AllowMeaning(t, r.ip, r.now);
    var allowed := Allow(t, r.ip, r.now).0;
    if ip in v {
      assert v[ip] == allowed[ip];
    }
  }

  lemma NextKeepsSound(t: Table, r: Request, v: Table)
    requires Sound(t, r.now) && Next(t, r, v)
    ensures Sound(v, r.now)
  {
    NextMeaning(t, r, v, r.ip);
  }

  // ---------------------------------------------------------------- pruning is invisible

  /** The first `n` requests come in nondecreasing time. */
  predicate Timed(requests: seq<Request>, n: nat)
    requires n <= |requests|
  {
    n <= 1 || (requests[n - 2].now <= requests[n - 1].now && Timed(requests, n - 1))
  }

  /** The tables of a limiter that keeps every entry for ever. */
  function Unbounded(requests: seq<Request>, n: nat): Table
    requires n <= |requests|
  {
    if n == 0 then map[] else Charge(Unbounded(requests, n - 1), requests[n - 1].ip, requests[n - 1].now).0
  }

  /** The first `n` requests of the run never cost the address its entry by hard eviction. */
  ghost predicate Spared(tables: seq<Table>, requests: seq<Request>, ip: string, n: nat)
    requires |tables| == |requests| + 1 && n <= |requests|
  {
    n == 0 || (Spared(tables, requests, ip, n - 1) && !Loses(tables[n - 1], requests[n - 1], tables[n], ip))
  }

  /** The first `n` requests of the run never make hard eviction fire. */
  ghost predicate NeverEvicts(tables: seq<Table>, requests: seq<Request>, n: nat)
    requires |tables| == |requests| + 1 && n <= |requests|
  {
    n == 0 ||
    (NeverEvicts(tables, requests, n - 1) && |Allow(tables[n - 1], requests[n - 1].ip, requests[n - 1].now).0| <= TABLE_LIMIT)
  }

  lemma SoundLater(t: Table, now: real, later: real)
    requires Sound(t, now) && now <= later
    ensures Sound(t, later)
  {}

  lemma SoundStep(t: Table, r: Request, v: Table, now: real)
    requires Sound(t, r.now) && Next(t, r, v) && r.now <= now
    ensures Sound(v, now)
  {
    NextKeepsSound(t, r, v);
    SoundLater(v, r.now, now);
  }

  lemma {:induction false} RunIsSound(tables: seq<Table>, requests: seq<Request>, n: nat, now: real)
    requires |tables| == |requests| + 1 && n <= |requests| && RunTo(tables, requests, n) && Timed(requests, n)
    requires n > 0 ==> requests[n - 1].now <= now
    ensures Sound(tables[n], now)
  {
    if n > 0 {
      RunIsSound(tables, requests, n - 1, requests[n - 1].now);
      assert Answered(tables, requests, n - 1);
      SoundStep(tables[n - 1], requests[n - 1], tables[n], now);
    }
  }

  lemma {:induction false} PrunedAgrees(tables: seq<Table>, requests: seq<Request>, ip: string, n: nat, now: real)
    requires |tables| == |requests| + 1 && n <= |requests| && RunTo(tables, requests, n) && Timed(requests, n)
    requires Spared(tables, requests, ip, n)
    requires n > 0 ==> requests[n - 1].now <= now
    ensures Sound(Unbounded(requests, n), now)
    ensures Level(tables[n], ip, now) == Level(Unbounded(requests, n), ip, now)
  {
    if n > 0 {
      var r := requests[n - 1];
      PrunedAgrees(tables, requests, ip, n - 1, r.now);
      RunIsSound(tables, requests, n - 1, r.now);
      assert Answered(tables, requests, n - 1);
      AgreeStep(tables[n - 1], tables[n], Unbounded(requests, n - 1), r, ip, now);
    }
  }

  lemma AgreeStep(t: Table, v: Table, u: Table, r: Request, ip: string, now: real)
    requires Sound(t, r.now) && Sound(u, r.now) && Next(t, r, v) && !Loses(t, r, v, ip)
    requires Level(t, ip, r.now) == Level(u, ip, r.now) && r.now <= now
    ensures var w := Charge(u, r.ip, r.now).0; Sound(w, now) && Level(v, ip, now) == Level(w, ip, now)
  {
    NextMeaning(t, r, v, ip);
    AllowMeaning(t, r.ip, r.now);
    ChargeMoves(u, r, ip);
    LevelGrows(v, ip, r.now, now);
    LevelGrows(Charge(u, r.ip, r.now).0, ip, r.now, now);
  }

  lemma ChargeMoves(u: Table, r: Request, ip: string)
    requires Sound(u, r.now)
    ensures Sound(Charge(u, r.ip, r.now).0, r.now)
    ensures Level(Charge(u, r.ip, r.now).0, ip, r.now) ==
            Level(u, ip, r.now) - if r.ip == ip && Level(u, ip, r.now) >= 1.0 then 1.0 else 0.0
  {}

  /** Dropping refilled entries changes no decision: for an address that has not been hard-evicted
      so far, the limiter decides as one that keeps every entry for ever. */
  lemma PruningIsInvisible(tables: seq<Table>, requests: seq<Request>, n: nat)
    requires |tables| == |requests| + 1 && n < |requests| && RunTo(tables, requests, n) && Timed(requests, n + 1)
    requires Spared(tables, requests, requests[n].ip, n)
    ensures Allowed(tables[n], requests[n]) == Charge(Unbounded(requests, n), requests[n].ip, requests[n].now).1
  {
    var r := requests[n];
    PrunedAgrees(tables, requests, r.ip, n, r.now);
    RunIsSound(tables, requests, n, r.now);
    AllowMeaning(tables[n], r.ip, r.now);
    AllowMeaning(Unbounded(requests, n), r.ip, r.now);
  }

  lemma {:induction false} NeverEvictsSpares(tables: seq<Table>, requests: seq<Request>, ip: string, n: nat)
    requires |tables| == |requests| + 1 && n <= |requests| && RunTo(tables, requests, n) && NeverEvicts(tables, requests, n)
    ensures Spared(tables, requests, ip, n)
  {
    if n > 0 {
      assert Answered(tables, requests, n - 1);
      NeverEvictsSpares(tables, requests, ip, n - 1);
    }
  }

  // ---------------------------------------------------------------- the rate

  /** How many of the requests number `lo` up to `hi` were admitted for the address. */
  function Admitted(tables: seq<Table>, requests: seq<Request>, ip: string, lo: nat, hi: nat): nat
    requires |tables| == |requests| + 1 && hi <= |requests|
    decreases hi
  {
    if hi <= lo then 0 else Admitted(tables, requests, ip, lo, hi - 1) + Cost(tables[hi - 1], requests[hi - 1], ip)
  }

  /** How often in that window hard eviction took its entry. */
  function Losses(tables: seq<Table>, requests: seq<Request>, ip: string, lo: nat, hi: nat): nat
    requires |tables| == |requests| + 1 && hi <= |requests|
    decreases hi
  {
    if hi <= lo then 0
    else Losses(tables, requests, ip, lo, hi - 1) + if Loses(tables[hi - 1], requests[hi - 1], tables[hi], ip) then 1 else 0
  }

  /** One request against the level at an earlier time. */
  lemma LevelStep(t: Table, r: Request, v: Table, ip: string, before: real)
    requires Sound(t, before) && before <= r.now && Next(t, r, v)
    ensures Cost(t, r, ip) as real + Level(v, ip, r.now)
            <= Level(t, ip, before) + (r.now - before) * REFILL + if Loses(t, r, v, ip) then CAPACITY else 0.0
    ensures Sound(v, r.now) && 0.0 <= Level(v, ip, r.now)
  {
    LevelGrows(t, ip, before, r.now);
    LevelGrows(t, ip, r.now, r.now);
    NextMeaning(t, r, v, ip);
    LevelGrows(v, ip, r.now, r.now);
    AllowMeaning(t, r.ip, r.now);
  }

  /** The admissions of a window, and the level left, are paid for by the level at its start, the
      refill since `start`, and the evictions. */
  ghost predicate Paid(tables: seq<Table>, requests: seq<Request>, ip: string, lo: nat, hi: nat, start: real, now: real)
    requires |tables| == |requests| + 1 && hi <= |requests|
  {
    Admitted(tables, requests, ip, lo, hi) as real + Level(tables[hi], ip, now)
    <= CAPACITY + CAPACITY * Losses(tables, requests, ip, lo, hi) as real + (now - start) * REFILL
  }

  lemma {:induction false} AdmittedIsPaidFor(tables: seq<Table>, requests: seq<Request>, ip: string, lo: nat, hi: nat, start: real, now: real)
    requires |tables| == |requests| + 1 && lo <= hi <= |requests| && RunTo(tables, requests, hi) && Timed(requests, hi)
    requires (lo > 0 ==> requests[lo - 1].now <= start) && (lo < |requests| ==> start <= requests[lo].now)
    requires now == if hi == lo then start else requests[hi - 1].now
    ensures Sound(tables[hi], now) && start <= now && Paid(tables, requests, ip, lo, hi, start, now)
    decreases hi
  {
    if hi == lo {
      RunIsSound(tables, requests, hi, now);
      LevelGrows(tables[hi], ip, now, now);
    } else {
      var r, before := requests[hi - 1], if hi - 1 == lo then start else requests[hi - 2].now;
      AdmittedIsPaidFor(tables, requests, ip, lo, hi - 1, start, before);
      assert Answered(tables, requests, hi - 1);
      LevelStep(tables[hi - 1], r, tables[hi], ip, before);
      PaidStep(tables, requests, ip, lo, hi, start, before);
    }
  }

  lemma PaidStep(tables: seq<Table>, requests: seq<Request>, ip: string, lo: nat, hi: nat, start: real, before: real)
    requires |tables| == |requests| + 1 && lo < hi <= |requests| && Paid(tables, requests, ip, lo, hi - 1, start, before)
    requires var t, r, v := tables[hi - 1], requests[hi - 1], tables[hi];
             Cost(t, r, ip) as real + Level(v, ip, r.now)
             <= Level(t, ip, before) + (r.now - before) * REFILL + if Loses(t, r, v, ip) then CAPACITY else 0.0
    ensures Paid(tables, requests, ip, lo, hi, start, requests[hi - 1].now)
  {}

  /** In any window of any run, an address has at most ten requests admitted, five more per
      second, and ten more for each time hard eviction took its entry in the window. */
  lemma WindowBound(tables: seq<Table>, requests: seq<Request>, ip: string, lo: nat, hi: nat)
    requires IsRun(tables, requests) && Timed(requests, |requests|) && lo < hi <= |requests|
    ensures Admitted(tables, requests, ip, lo, hi) as real
            <= 10.0 + 10.0 * Losses(tables, requests, ip, lo, hi) as real + 5.0 * (requests[hi - 1].now - requests[lo].now)
    ensures NeverEvicts(tables, requests, hi) ==>
              Admitted(tables, requests, ip, lo, hi) as real <= 10.0 + 5.0 * (requests[hi - 1].now - requests[lo].now)
  {
    if NeverEvicts(tables, requests, hi) {
      assert RunTo(tables, requests, hi);
      NoLosses(tables, requests, ip, lo, hi);
    }
    assert RunTo(tables, requests, hi);
    TimedPrefix(requests, |requests|, hi);
    TimedPrefix(requests, hi, lo + 1);
    AdmittedIsPaidFor(tables, requests, ip, lo, hi, requests[lo].now, requests[hi - 1].now);
    LevelGrows(tables[hi], ip, requests[hi - 1].now, requests[hi - 1].now);
  }

  /** No request of the address is among the last ones that come less than a fifth of a second
      before. */
  predicate Quiet(requests: seq<Request>, ip: string, n: nat, now: real)
    requires n <= |requests|
  {
    n == 0 || now - requests[n - 1].now >= 0.2 || (requests[n - 1].ip != ip && Quiet(requests, ip, n - 1, now))
  }

  /** And it is not refused more than it must: a request at least a fifth of a second after the
      address's last is always admitted, and so is its first. */
  lemma SpacedRequestsPass(tables: seq<Table>, requests: seq<Request>, n: nat)
    requires |tables| == |requests| + 1 && n < |requests| && RunTo(tables, requests, n) && Timed(requests, n + 1)
    requires Quiet(requests, requests[n].ip, n, requests[n].now)
    ensures Allowed(tables[n], requests[n])
  {
    var r := requests[n];
    FullEnough(tables, requests, r.ip, n, r.now);
    RunIsSound(tables, requests, n, r.now);
    AllowMeaning(tables[n], r.ip, r.now);
  }

  lemma {:induction false} FullEnough(tables: seq<Table>, requests: seq<Request>, ip: string, n: nat, now: real)
    requires |tables| == |requests| + 1 && n <= |requests| && RunTo(tables, requests, n) && Timed(requests, n)
    requires n > 0 ==> requests[n - 1].now <= now
    requires Quiet(requests, ip, n, now)
    ensures Level(tables[n], ip, now) >= 1.0
  {
    if n > 0 {
      var r := requests[n - 1];
      assert Answered(tables, requests, n - 1);
      RunIsSound(tables, requests, n - 1, r.now);
      RunIsSound(tables, requests, n, r.now);
      LevelGrows(tables[n], ip, r.now, now);
      if now - r.now < 0.2 {
        FullEnough(tables, requests, ip, n - 1, now);
        LevelGrows(tables[n - 1], ip, r.now, now);
        NextMeaning(tables[n - 1], r, tables[n], ip);
      }
    }
  }

  lemma {:induction false} TimedPrefix(requests: seq<Request>, n: nat, m: nat)
    requires m <= n <= |requests| && Timed(requests, n)
    ensures Timed(requests, m)
    decreases n
  {
    if m < n {
      TimedPrefix(requests, n - 1, m);
    }
  }

  lemma {:induction false} NoLosses(tables: seq<Table>, requests: seq<Request>, ip: string, lo: nat, hi: nat)
    requires |tables| == |requests| + 1 && hi <= |requests| && RunTo(tables, requests, hi) && NeverEvicts(tables, requests, hi)
    ensures Losses(tables, requests, ip, lo, hi) == 0
    decreases hi
  {
    if lo < hi {
      assert Answered(tables, requests, hi - 1);
      NoLosses(tables, requests, ip, lo, hi - 1);
    }
  }
}
