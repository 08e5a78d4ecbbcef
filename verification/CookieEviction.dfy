/** What hard eviction does to the cookie limiter's promise: a run in which one address is
    admitted twenty times in a fiftieth of a second. */
module CookieEviction {
  import opened CookieLimiter

  const SOURCE: string := "a"

  datatype Trace = Trace(tables: seq<Table>, requests: seq<Request>)

  /** The run so far: its last table and time, and how often SOURCE was admitted in it. */
  ghost predicate At(x: Trace, t: Table, now: real, count: nat) {
    && IsRun(x.tables, x.requests) && Timed(x.requests, |x.requests|)
    && x.tables[|x.requests|] == t
    && (|x.requests| > 0 ==> x.requests[|x.requests| - 1].now == now && x.requests[0].now == 0.0)
    && (|x.requests| == 0 ==> now == 0.0)
    && Admitted(x.tables, x.requests, SOURCE, 0, |x.requests|) == count
  }

  lemma {:induction false} TimedLonger(requests: seq<Request>, r: Request, n: nat)
    requires n <= |requests| && Timed(requests, n)
    ensures Timed(requests + [r], n)
    decreases n
  {
    if n > 1 {
      TimedLonger(requests, r, n - 1);
    }
  }

  lemma {:induction false} AdmittedLonger(tables: seq<Table>, requests: seq<Request>, r: Request, v: Table, n: nat)
    requires |tables| == |requests| + 1 && n <= |requests|
    ensures Admitted(tables + [v], requests + [r], SOURCE, 0, n) == Admitted(tables, requests, SOURCE, 0, n)
    decreases n
  {
    if n > 0 {
      AdmittedLonger(tables, requests, r, v, n - 1);
    }
  }

  lemma TimedSnoc(requests: seq<Request>, r: Request)
    requires Timed(requests, |requests|) && (|requests| > 0 ==> requests[|requests| - 1].now <= r.now)
    ensures Timed(requests + [r], |requests + [r]|)
  {
    TimedLonger(requests, r, |requests|);
  }

  lemma AdmittedSnoc(tables: seq<Table>, requests: seq<Request>, r: Request, v: Table)
    requires |tables| == |requests| + 1
    ensures Admitted(tables + [v], requests + [r], SOURCE, 0, |requests + [r]|)
            == Admitted(tables, requests, SOURCE, 0, |requests|) + Cost(tables[|requests|], r, SOURCE)
  {
    AdmittedLonger(tables, requests, r, v, |requests|);
  }

  lemma Ask(x: Trace, t: Table, now: real, count: nat, r: Request, v: Table) returns (y: Trace)
    requires At(x, t, now, count) && Next(t, r, v) && now <= r.now && (|x.requests| == 0 ==> r.now == 0.0)
    ensures At(y, v, r.now, count + Cost(t, r, SOURCE)) && |y.requests| == |x.requests| + 1
  {
    y := Trace(x.tables + [v], x.requests + [r]);
    RunSnoc(x.tables, x.requests, r, v);
    TimedSnoc(x.requests, r);
    AdmittedSnoc(x.tables, x.requests, r, v);
  }

  // ---------------------------------------------------------------- the other addresses

  function Name(k: nat): string { seq(k, _ => 'b') }

  /** `k` other addresses that have each asked once. */
  function Others(k: nat): Table {
    if k == 0 then map[] else Others(k - 1)[Name(k) := Bucket(9.0, 0.01)]
  }

  lemma {:induction false} OthersMeaning(k: nat)
    ensures |Others(k)| == k && SOURCE !in Others(k)
    ensures forall n :: n in Others(k) ==> 1 <= |n| <= k && Others(k)[n] == Bucket(9.0, 0.01)
    ensures k > 0 ==> Name(1) in Others(k)
  {
    if k > 0 {
      OthersMeaning(k - 1);
      assert |Name(k)| == k && Name(k)[0] == 'b';
      Insertion(Others(k - 1), Name(k), Bucket(9.0, 0.01));
    }
  }

  lemma Insertion(t: Table, k: string, b: Bucket)
    ensures |t[k := b]| == |t| + if k in t then 0 else 1
  {
    assert t[k := b].Keys == t.Keys + {k};
    assert |t.Keys| == |t| && |t[k := b].Keys| == |t[k := b]|;
  }

  lemma FirstAsk(t: Table, r: Request)
    requires r.ip !in t
    ensures Charge(t, r.ip, r.now) == (t[r.ip := Bucket(9.0, r.now)], true)
  {}

  lemma UncrowdedNext(t: Table, r: Request, v: Table)
    requires Charge(t, r.ip, r.now).0 == v && |v| <= TABLE_LIMIT
    ensures Next(t, r, v)
  {}

  lemma CrowdedNext(t: Table, r: Request, charged: Table, v: Table)
    requires Charge(t, r.ip, r.now) == (charged, true) && |charged| > TABLE_LIMIT
    requires Prune(charged, r.now) == charged && Evicted(charged, v)
    ensures Next(t, r, v) && Allowed(t, r)
  {}

  lemma OneEvicted(charged: Table, victim: string)
    requires victim in charged && |charged| == TABLE_LIMIT + 1
    requires forall k :: k in charged ==> charged[victim].last <= charged[k].last
    ensures Evicted(charged, charged - {victim}) && |charged - {victim}| == TABLE_LIMIT
  {
    MapRemoval(charged, victim);
  }

  /** A crowded table in which nothing has refilled: one request more, and an oldest entry goes. */
  lemma EvictOne(t: Table, r: Request, victim: string, v: Table)
    requires |t| == TABLE_LIMIT && r.ip !in t && victim in t && victim != r.ip
    requires forall k :: k in t ==> Effective(t[k], r.now) < CAPACITY && t[victim].last <= t[k].last <= r.now
    requires v == t[r.ip := Bucket(9.0, r.now)] - {victim}
    ensures Next(t, r, v) && Allowed(t, r) && |v| == TABLE_LIMIT
  {
    var charged := t[r.ip := Bucket(9.0, r.now)];
    FirstAsk(t, r);
    Insertion(t, r.ip, Bucket(9.0, r.now));
    assert forall k :: k in charged ==> Effective(charged[k], r.now) < CAPACITY;
    assert Prune(charged, r.now) == charged;
    OneEvicted(charged, victim);
    CrowdedNext(t, r, charged, v);
  }

  // ---------------------------------------------------------------- the run

  /** What SOURCE has left after `n` requests at one time, in an otherwise fixed table. */
  function Spent(rest: Table, n: nat, now: real): Table {
    rest[SOURCE := Bucket(10.0 - n as real, now)]
  }

  lemma SpendStep(rest: Table, n: nat, now: real)
    requires n < 10 && |Spent(rest, n, now)| <= TABLE_LIMIT
    ensures Next(Spent(rest, n, now), Request(SOURCE, now), Spent(rest, n + 1, now))
    ensures Cost(Spent(rest, n, now), Request(SOURCE, now), SOURCE) == 1
  {
    var t := Spent(rest, n, now);
    assert Charge(t, SOURCE, now).0 == Spent(rest, n + 1, now);
    assert Spent(rest, n + 1, now).Keys == t.Keys;
    assert |t.Keys| == |t| && |Spent(rest, n + 1, now).Keys| == |Spent(rest, n + 1, now)|;
  }

  lemma Spend(x: Trace, rest: Table, n: nat, now: real, count: nat) returns (y: Trace)
    requires At(x, Spent(rest, n, now), now, count) && n <= 10 && |Spent(rest, n, now)| <= TABLE_LIMIT
    requires |x.requests| == 0 ==> now == 0.0
    ensures At(y, Spent(rest, 10, now), now, count + 10 - n) && |y.requests| == |x.requests| + 10 - n
    decreases 10 - n
  {
    if n == 10 {
      y := x;
    } else {
      SpendStep(rest, n, now);
      var z := Ask(x, Spent(rest, n, now), now, count, Request(SOURCE, now), Spent(rest, n + 1, now));
      assert Spent(rest, n + 1, now).Keys == Spent(rest, n, now).Keys;
      assert |Spent(rest, n + 1, now)| == |Spent(rest, n + 1, now).Keys| && |Spent(rest, n, now)| == |Spent(rest, n, now).Keys|;
      y := Spend(z, rest, n + 1, now, count + 1);
    }
  }

  function Crowd(k: nat): Table { Spent(Others(k), 10, 0.0) }

  lemma Interchange(t: Table, a: string, p: Bucket, b: string, q: Bucket)
    requires a != b
    ensures t[a := p][b := q] == t[b := q][a := p]
  {}

  /** One more address in the crowd. */
  lemma CrowdGrows(k: nat)
    ensures Name(k + 1) !in Crowd(k) && Name(k + 1) != SOURCE && |Crowd(k + 1)| == k + 2
    ensures Crowd(k)[Name(k + 1) := Bucket(9.0, 0.01)] == Crowd(k + 1)
  {
    OthersMeaning(k);
    OthersMeaning(k + 1);
    assert |Name(k + 1)| == k + 1 && Name(k + 1)[0] == 'b';
    Insertion(Others(k + 1), SOURCE, Bucket(0.0, 0.0));
    Interchange(Others(k), SOURCE, Bucket(10.0 - 10 as real, 0.0), Name(k + 1), Bucket(9.0, 0.01));
  }

  lemma CrowdStep(k: nat)
    requires k + 1 < TABLE_LIMIT
    ensures var r := Request(Name(k + 1), 0.01);
            Next(Crowd(k), r, Crowd(k + 1)) && Cost(Crowd(k), r, SOURCE) == 0
  {
    CrowdGrows(k);
    FirstAsk(Crowd(k), Request(Name(k + 1), 0.01));
    UncrowdedNext(Crowd(k), Request(Name(k + 1), 0.01), Crowd(k + 1));
  }

  lemma GatherOne(x: Trace, k: nat, now: real, count: nat) returns (y: Trace)
    requires At(x, Crowd(k), now, count) && k + 1 < TABLE_LIMIT && now <= 0.01 && |x.requests| > 0
    ensures At(y, Crowd(k + 1), 0.01, count) && |y.requests| > 0
  {
    CrowdStep(k);
    y := Ask(x, Crowd(k), now, count, Request(Name(k + 1), 0.01), Crowd(k + 1));
  }

  lemma Gather(x: Trace, k: nat, now: real, count: nat) returns (y: Trace)
    requires At(x, Crowd(k), now, count) && k < TABLE_LIMIT && now <= 0.01 && |x.requests| > 0
    ensures At(y, Crowd(TABLE_LIMIT - 1), if k == TABLE_LIMIT - 1 then now else 0.01, count) && |y.requests| > 0
    decreases TABLE_LIMIT - k
  {
    if k == TABLE_LIMIT - 1 {
      y := x;
    } else {
      var z := GatherOne(x, k, now, count);
      y := Gather(z, k + 1, 0.01, count);
    }
  }

  /** Nothing in the crowd has refilled when the last of the others asks, and SOURCE is oldest. */
  lemma CrowdIsBusy()
    ensures var t := Crowd(TABLE_LIMIT - 1);
            && |t| == TABLE_LIMIT && Name(TABLE_LIMIT) !in t && SOURCE in t && Name(TABLE_LIMIT) != SOURCE
            && forall k :: k in t ==> Effective(t[k], 0.01) < CAPACITY && t[SOURCE].last <= t[k].last <= 0.01
  {
    var n := TABLE_LIMIT - 1;
    OthersMeaning(n);
    Insertion(Others(n), SOURCE, Bucket(0.0, 0.0));
    assert |Name(TABLE_LIMIT)| == TABLE_LIMIT && Name(TABLE_LIMIT)[0] == 'b';
    assert Crowd(n)[SOURCE] == Bucket(0.0, 0.0);
  }

  lemma CrowdWithoutSource()
    ensures Crowd(TABLE_LIMIT - 1)[Name(TABLE_LIMIT) := Bucket(9.0, 0.01)] - {SOURCE} == Others(TABLE_LIMIT)
  {
    OthersMeaning(TABLE_LIMIT - 1);
    assert Name(TABLE_LIMIT)[0] == 'b';
    Overtake(Others(TABLE_LIMIT - 1), SOURCE, Bucket(10.0 - 10 as real, 0.0), Name(TABLE_LIMIT), Bucket(9.0, 0.01));
  }

  lemma Overtake(t: Table, a: string, p: Bucket, b: string, q: Bucket)
    requires a !in t && a != b
    ensures t[a := p][b := q] - {a} == t[b := q]
  {}

  /** The last of a thousand others: SOURCE, the oldest, loses its entry. */
  lemma SourceEvicted()
    ensures Next(Crowd(TABLE_LIMIT - 1), Request(Name(TABLE_LIMIT), 0.01), Others(TABLE_LIMIT))
  {
    CrowdIsBusy();
    CrowdWithoutSource();
    EvictOne(Crowd(TABLE_LIMIT - 1), Request(Name(TABLE_LIMIT), 0.01), SOURCE, Others(TABLE_LIMIT));
  }

  lemma OthersAreBusy()
    ensures var t := Others(TABLE_LIMIT);
            && |t| == TABLE_LIMIT && SOURCE !in t && Name(1) in t && Name(1) != SOURCE
            && forall k :: k in t ==> Effective(t[k], 0.02) < CAPACITY && t[Name(1)].last <= t[k].last <= 0.02
  {
    OthersMeaning(TABLE_LIMIT);
    assert Name(1)[0] == 'b';
  }

  lemma SpentWithoutName(t: Table, name: string, now: real)
    requires name != SOURCE
    ensures t[SOURCE := Bucket(9.0, now)] - {name} == Spent(t - {name}, 1, now)
  {}

  /** SOURCE is full again, and one of the others goes. */
  lemma SourceReturns()
    ensures var r := Request(SOURCE, 0.02);
            var rest := Others(TABLE_LIMIT) - {Name(1)};
            && Next(Others(TABLE_LIMIT), r, Spent(rest, 1, 0.02)) && Cost(Others(TABLE_LIMIT), r, SOURCE) == 1
            && |Spent(rest, 1, 0.02)| == TABLE_LIMIT
  {
    OthersAreBusy();
    SpentWithoutName(Others(TABLE_LIMIT), Name(1), 0.02);
    EvictOne(Others(TABLE_LIMIT), Request(SOURCE, 0.02), Name(1), Spent(Others(TABLE_LIMIT) - {Name(1)}, 1, 0.02));
  }

  /** The bound of ten plus five a second fails once hard eviction takes the address's own entry:
      twenty requests in 0.02 s. */
  lemma EvictionRefills() returns (tables: seq<Table>, requests: seq<Request>)
    ensures IsRun(tables, requests) && Timed(requests, |requests|) && |requests| > 0
    ensures requests[|requests| - 1].now - requests[0].now == 0.02
    ensures Admitted(tables, requests, SOURCE, 0, |requests|) == 20
  {
    var start := Trace([map[]], []);
    var first := map[SOURCE := Bucket(9.0, 0.0)];
    assert Next(map[], Request(SOURCE, 0.0), first);
    var x1 := Ask(start, map[], 0.0, 0, Request(SOURCE, 0.0), first);
    assert first == Spent(map[], 1, 0.0);
    var x2 := Spend(x1, map[], 1, 0.0, 1);
    assert Crowd(0) == Spent(map[], 10, 0.0);
    var x3 := Gather(x2, 0, 0.0, 10);
    SourceEvicted();
    var x4 := Ask(x3, Crowd(TABLE_LIMIT - 1), 0.01, 10, Request(Name(TABLE_LIMIT), 0.01), Others(TABLE_LIMIT));
    SourceReturns();
    var rest := Others(TABLE_LIMIT) - {Name(1)};
    assert Name(TABLE_LIMIT)[0] == 'b';
    var x5 := Ask(x4, Others(TABLE_LIMIT), 0.01, 10, Request(SOURCE, 0.02), Spent(rest, 1, 0.02));
    var x6 := Spend(x5, rest, 1, 0.02, 11);
    tables, requests := x6.tables, x6.requests;
  }
}
