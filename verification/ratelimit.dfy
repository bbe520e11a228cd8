/** The per-IP token bucket with its lossy sweep. Times are seconds on a clock
    that never goes back; float64 is taken as real. */
module RateLimit {
  import opened Basics

  /** tokens and lastSeen decide; requests and throttled only count for the overview. */
  datatype Bucket = Bucket(tokens: real, lastSeen: real, requests: nat, throttled: nat)

  datatype Config = Config(burst: nat, rate: real)

  predicate Sane(c: Config) {
    c.burst >= 1 && c.rate > 0.0
  }

  function Min(a: real, b: real): real {
    if a <= b then a else b
  }

  /** What elapsed seconds refill. */
  function Gain(c: Config, elapsed: real): real {
    elapsed * c.rate
  }

  /** What a bucket, or the lack of one, is worth at time t. */
  function Worth(c: Config, buckets: map<string, Bucket>, ip: string, t: real): real {
    if ip in buckets
    then Min(c.burst as real, buckets[ip].tokens + Gain(c, t - buckets[ip].lastSeen))
    else c.burst as real
  }

  /** Refill lazily, then take one token if there is a whole one. */
  function Admit(c: Config, buckets: map<string, Bucket>, ip: string, t: real): (r: (map<string, Bucket>, bool)) {
    var w := Worth(c, buckets, ip, t);
    var was := if ip in buckets then buckets[ip] else Bucket(0.0, t, 0, 0);
    if w >= 1.0 then (buckets[ip := Bucket(w - 1.0, t, was.requests + 1, was.throttled)], true)
    else (buckets[ip := Bucket(w, t, was.requests + 1, was.throttled + 1)], false)
  }

  predicate Stale(b: Bucket, now: real, maxAge: real) {
    now - b.lastSeen > maxAge
  }

  class Limiter {
    var buckets: map<string, Bucket>
    const config: Config

    constructor (burst: nat, perMinute: nat)
      requires burst > 0 && perMinute > 0
      ensures buckets == map[] && Sane(config) && config == Config(burst, perMinute as real / 60.0)
    {
      buckets, config := map[], Config(burst, perMinute as real / 60.0);
    }

    method Allow(ip: string, t: real) returns (ok: bool)
      modifies this
      ensures (buckets, ok) == Admit(config, old(buckets), ip, t)
    {
      hide Gain;
      var b;
      if ip !in buckets {
        b := Bucket(config.burst as real, t, 0, 0);
      } else {
        b := buckets[ip];
        var elapsed := t - b.lastSeen;
        b := b.(tokens := b.tokens + Gain(config, elapsed));
        if b.tokens > config.burst as real {
          b := b.(tokens := config.burst as real);
        }
        b := b.(lastSeen := t);
      }
      b := b.(requests := b.requests + 1);
      if b.tokens >= 1.0 {
        buckets := buckets[ip := b.(tokens := b.tokens - 1.0)];
        return true;
      }
      buckets := buckets[ip := b.(throttled := b.throttled + 1)];
      ok := false;
    }

    /** cleanup reads the clock once per bucket; now says what it reads. */
    method Cleanup(now: string -> real, maxAge: real)
      modifies this
      ensures buckets == map ip | ip in old(buckets) && !Stale(old(buckets)[ip], now(ip), maxAge) :: old(buckets)[ip]
      ensures forall ip :: ip in buckets <==> ip in old(buckets) && now(ip) - old(buckets)[ip].lastSeen <= maxAge
      ensures forall t :: (forall ip :: ip in old(buckets) ==> now(ip) <= t) ==>
                buckets == Step(config, old(buckets), Sweep(Aged(old(buckets), now, maxAge), t))
    {
      var before := buckets;
      var rest := buckets.Keys;
      while rest != {}
        invariant rest <= before.Keys
        invariant forall ip :: ip in buckets <==>
          ip in before && (ip in rest || !Stale(before[ip], now(ip), maxAge))
        invariant forall ip :: ip in buckets ==> buckets[ip] == before[ip]
        decreases rest
      {
        var ip :| ip in rest;
        if Stale(buckets[ip], now(ip), maxAge) {
          buckets := buckets - {ip};
        }
        rest := rest - {ip};
      }
    }
  }

  // ---- runs

  /** A request, or a sweep that drops some buckets it found stale by its time. */
  datatype Event = Call(ip: string, time: real) | Sweep(gone: set<string>, time: real)

  function Step(c: Config, buckets: map<string, Bucket>, e: Event): map<string, Bucket> {
    match e
    case Call(ip, t) => Admit(c, buckets, ip, t).0
    case Sweep(gone, _) => buckets - gone
  }

  function After(c: Config, buckets: map<string, Bucket>, run: seq<Event>): map<string, Bucket> {
    if run == [] then buckets else Step(c, After(c, buckets, run[..|run| - 1]), run[|run| - 1])
  }

  /** The answers to the calls of a run. */
  function Answers(c: Config, buckets: map<string, Bucket>, run: seq<Event>): seq<bool> {
    if run == [] then []
    else
      var n := |run| - 1;
      Answers(c, buckets, run[..n]) +
      if run[n].Call? then [Admit(c, After(c, buckets, run[..n]), run[n].ip, run[n].time).1] else []
  }

  /** The same run by a limiter that never forgets. */
  function Unswept(run: seq<Event>): seq<Event> {
    if run == [] then []
    else Unswept(run[..|run| - 1]) + if run[|run| - 1].Call? then [run[|run| - 1]] else []
  }

  /** Every dropped bucket was stale when it was dropped. */
  predicate LawfulSweeps(c: Config, buckets: map<string, Bucket>, run: seq<Event>, maxAge: real) {
    run == [] ||
    (var n := |run| - 1;
     LawfulSweeps(c, buckets, run[..n], maxAge) &&
     (run[n].Sweep? ==>
        var before := After(c, buckets, run[..n]);
        forall ip :: ip in run[n].gone && ip in before ==> Stale(before[ip], run[n].time, maxAge)))
  }

  /** The clock never goes back. */
  predicate Ordered(run: seq<Event>, start: real) {
    run == [] ||
    (var n := |run| - 1;
     Ordered(run[..n], start) && start <= run[n].time && (n > 0 ==> run[n - 1].time <= run[n].time))
  }

  function End(run: seq<Event>, start: real): real {
    if run == [] then start else run[|run| - 1].time
  }

  predicate Healthy(c: Config, buckets: map<string, Bucket>, t: real) {
    forall ip :: ip in buckets ==> 0.0 <= buckets[ip].tokens <= c.burst as real && buckets[ip].lastSeen <= t
  }

  // ---- token bounds

  lemma GainAdds(c: Config, a: real, b: real)
    ensures Gain(c, a + b) == Gain(c, a) + Gain(c, b)
  {}

  lemma GainIs(c: Config, a: real)
    ensures Gain(c, a) == c.rate * a
  {}

  lemma GainGrows(c: Config, a: real)
    requires Sane(c) && a >= 0.0
    ensures Gain(c, a) >= 0.0 && Gain(c, 0.0) == 0.0
  {}

  lemma WorthGrows(c: Config, buckets: map<string, Bucket>, ip: string, t: real, u: real)
    requires Sane(c) && Healthy(c, buckets, t) && t <= u
    ensures 0.0 <= Worth(c, buckets, ip, t) <= Worth(c, buckets, ip, u) <= c.burst as real
    ensures Worth(c, buckets, ip, u) <= Worth(c, buckets, ip, t) + Gain(c, u - t)
  {
    hide Gain;
    GainGrows(c, u - t);
    if ip in buckets {
      var b := buckets[ip];
      GainGrows(c, t - b.lastSeen);
      GainAdds(c, t - b.lastSeen, u - t);
      assert (t - b.lastSeen) + (u - t) == u - b.lastSeen;
    }
  }

  lemma StepKeepsHealth(c: Config, buckets: map<string, Bucket>, e: Event, t: real)
    requires Sane(c) && Healthy(c, buckets, t) && t <= e.time
    ensures Healthy(c, Step(c, buckets, e), e.time)
  {
    if e.Call? {
      WorthGrows(c, buckets, e.ip, t, e.time);
    }
  }

  /** Tokens stay between nothing and burst over every run. */
  lemma {:induction false} TokensStayInBounds(c: Config, buckets: map<string, Bucket>, run: seq<Event>, start: real)
    requires Sane(c) && Healthy(c, buckets, start) && Ordered(run, start)
    ensures Healthy(c, After(c, buckets, run), End(run, start))
  {
    if run != [] {
      var n := |run| - 1;
      TokensStayInBounds(c, buckets, run[..n], start);
      StepKeepsHealth(c, After(c, buckets, run[..n]), run[n], End(run[..n], start));
    }
  }

  // ---- the sweep is invisible

  /** a has forgotten only buckets that are full again by time t. */
  predicate Forgets(c: Config, a: map<string, Bucket>, b: map<string, Bucket>, t: real) {
    (forall ip :: ip in a ==> ip in b && a[ip].tokens == b[ip].tokens && a[ip].lastSeen == b[ip].lastSeen) &&
    (forall ip :: ip in b && ip !in a ==> Worth(c, b, ip, t) == c.burst as real)
  }

  lemma StaysFull(c: Config, b: map<string, Bucket>, ip: string, t: real, u: real)
    requires Sane(c) && Healthy(c, b, t) && t <= u && Worth(c, b, ip, t) == c.burst as real
    ensures Worth(c, b, ip, u) == c.burst as real
  {
    hide Worth, Healthy;
    WorthGrows(c, b, ip, t, u);
  }

  lemma StaleIsFull(c: Config, b: Bucket, u: real, maxAge: real)
    requires Sane(c) && b.tokens >= 0.0 && Stale(b, u, maxAge) && Gain(c, maxAge) >= c.burst as real
    ensures b.tokens + Gain(c, u - b.lastSeen) >= c.burst as real
  {
    hide Gain;
    var e := u - b.lastSeen;
    GainGrows(c, e - maxAge);
    GainAdds(c, e - maxAge, maxAge);
    assert (e - maxAge) + maxAge == e;
  }

  lemma SameWorth(c: Config, a: map<string, Bucket>, b: map<string, Bucket>, ip: string, t: real, u: real)
    requires Sane(c) && Forgets(c, a, b, t) && Healthy(c, b, t) && t <= u
    ensures Worth(c, a, ip, u) == Worth(c, b, ip, u)
  {
    hide Healthy;
    if ip in b && ip !in a {
      StaysFull(c, b, ip, t, u);
    }
  }

  /** Worth looks at one bucket only. */
  lemma WorthIsLocal(c: Config, a: map<string, Bucket>, b: map<string, Bucket>, ip: string, t: real)
    requires ip in a && ip in b && a[ip] == b[ip]
    ensures Worth(c, a, ip, t) == Worth(c, b, ip, t)
  {}

  lemma CallAnswersTheSame(c: Config, a: map<string, Bucket>, b: map<string, Bucket>, ip: string, t: real, u: real)
    requires Sane(c) && Forgets(c, a, b, t) && Healthy(c, b, t) && t <= u
    ensures Admit(c, a, ip, u).1 == Admit(c, b, ip, u).1
    ensures Forgets(c, Admit(c, a, ip, u).0, Admit(c, b, ip, u).0, u)
  {
    hide Worth, Healthy;
    SameWorth(c, a, b, ip, t, u);
    var a', b' := Admit(c, a, ip, u).0, Admit(c, b, ip, u).0;
    forall i | i in b' && i !in a' ensures Worth(c, b', i, u) == c.burst as real {
      StaysFull(c, b, i, t, u);
      WorthIsLocal(c, b, b', i, u);
    }
  }

  lemma SweepStaysForgetful(c: Config, a: map<string, Bucket>, b: map<string, Bucket>, gone: set<string>, t: real, u: real, maxAge: real)
    requires Sane(c) && Forgets(c, a, b, t) && Healthy(c, b, t) && t <= u && Gain(c, maxAge) >= c.burst as real
    requires forall ip :: ip in gone && ip in a ==> Stale(a[ip], u, maxAge)
    ensures Forgets(c, a - gone, b, u)
  {
    hide Stale, Gain;
    forall ip | ip in b && ip !in a - gone ensures Worth(c, b, ip, u) == c.burst as real {
      if ip in a {
        assert Stale(b[ip], u, maxAge) by { assert Stale(a[ip], u, maxAge); SameStale(a[ip], b[ip], u, maxAge); }
        StaleIsFull(c, b[ip], u, maxAge);
      } else {
        StaysFull(c, b, ip, t, u);
      }
    }
  }

  lemma SameStale(a: Bucket, b: Bucket, u: real, maxAge: real)
    requires a.lastSeen == b.lastSeen
    ensures Stale(a, u, maxAge) == Stale(b, u, maxAge)
  {}

  lemma {:induction false} SweptRefinesUnswept(c: Config, run: seq<Event>, start: real, maxAge: real)
    requires Sane(c) && Gain(c, maxAge) >= c.burst as real
    requires Ordered(run, start) && LawfulSweeps(c, map[], run, maxAge)
    ensures Answers(c, map[], run) == Answers(c, map[], Unswept(run))
    ensures Forgets(c, After(c, map[], run), After(c, map[], Unswept(run)), End(run, start))
    ensures Healthy(c, After(c, map[], Unswept(run)), End(run, start))
  {
    if run != [] {
      var n := |run| - 1;
      var e := run[n];
      SweptRefinesUnswept(c, run[..n], start, maxAge);
      var a, b := After(c, map[], run[..n]), After(c, map[], Unswept(run[..n]));
      var t := End(run[..n], start);
      if e.Call? {
        var u := Unswept(run);
        assert u[..|u| - 1] == Unswept(run[..n]);
        CallAnswersTheSame(c, a, b, e.ip, t, e.time);
        StepKeepsHealth(c, b, e, t);
      } else {
        assert Unswept(run) == Unswept(run[..n]);
        SweepStaysForgetful(c, a, b, e.gone, t, e.time, maxAge);
      }
    }
  }

  // ---- and visible as soon as that is not so

  function Burst(ip: string, t: real, n: nat): seq<Event> {
    if n == 0 then [] else Burst(ip, t, n - 1) + [Call(ip, t)]
  }

  function Yes(n: nat): (s: seq<bool>)
    ensures |s| == n && forall i :: 0 <= i < n ==> s[i]
  {
    if n == 0 then [] else Yes(n - 1) + [true]
  }

  lemma OneMoreCall(c: Config, m: map<string, Bucket>, run: seq<Event>, ip: string, t: real)
    ensures After(c, m, run + [Call(ip, t)]) == Admit(c, After(c, m, run), ip, t).0
    ensures Answers(c, m, run + [Call(ip, t)]) == Answers(c, m, run) + [Admit(c, After(c, m, run), ip, t).1]
    ensures Unswept(run + [Call(ip, t)]) == Unswept(run) + [Call(ip, t)]
  {
    hide Admit;
    assert (run + [Call(ip, t)])[..|run|] == run;
  }

  lemma OneMoreCallInOrder(c: Config, m: map<string, Bucket>, run: seq<Event>, ip: string, t: real, start: real, maxAge: real)
    requires Ordered(run, start) && start <= End(run, start) <= t && LawfulSweeps(c, m, run, maxAge)
    ensures Ordered(run + [Call(ip, t)], start) && LawfulSweeps(c, m, run + [Call(ip, t)], maxAge)
    ensures End(run + [Call(ip, t)], start) == t
  {
    assert (run + [Call(ip, t)])[..|run|] == run;
  }

  lemma AdmitWorth(c: Config, m: map<string, Bucket>, ip: string, t: real)
    requires Worth(c, m, ip, t) <= c.burst as real
    ensures var (m', ok) := Admit(c, m, ip, t);
            (ok <==> Worth(c, m, ip, t) >= 1.0) &&
            Worth(c, m', ip, t) == Worth(c, m, ip, t) - (if ok then 1.0 else 0.0) &&
            ip in m' && m'[ip].lastSeen == t
  {
    hide Worth;
    JustSeen(c, Admit(c, m, ip, t).0, ip, t);
  }

  lemma JustSeen(c: Config, m: map<string, Bucket>, ip: string, t: real)
    requires ip in m && m[ip].lastSeen == t && m[ip].tokens <= c.burst as real
    ensures Worth(c, m, ip, t) == m[ip].tokens
  {
    assert t - m[ip].lastSeen == 0.0;
  }

  lemma NextOfBurst(pre: seq<Event>, ip: string, t: real, n: nat)
    requires n > 0
    ensures pre + Burst(ip, t, n) == pre + Burst(ip, t, n - 1) + [Call(ip, t)]
  {
    hide Burst;
    assert Burst(ip, t, n) == Burst(ip, t, n - 1) + [Call(ip, t)] by {
      BurstStep(ip, t, n);
    }
    Reassociate(pre, Burst(ip, t, n - 1), [Call(ip, t)]);
  }

  lemma BurstStep(ip: string, t: real, n: nat)
    requires n > 0
    ensures Burst(ip, t, n) == Burst(ip, t, n - 1) + [Call(ip, t)]
  {}

  lemma NoBurst(pre: seq<Event>, ip: string, t: real)
    ensures pre + Burst(ip, t, 0) == pre
  {}

  lemma NextYes(answers: seq<bool>, n: nat)
    requires n > 0
    ensures answers + Yes(n) == answers + Yes(n - 1) + [true]
    ensures answers + Yes(0) == answers
  {
    Reassociate(answers, Yes(n - 1), [true]);
  }

  lemma NatAsReal(n: nat)
    requires n > 0
    ensures (n - 1) as real == n as real - 1.0
  {}

  /** Calls at one instant are answered yes while whole tokens last, and each takes one. */
  lemma {:induction false} BurstWhileTokensLast(c: Config, m: map<string, Bucket>, pre: seq<Event>, ip: string, t: real, n: nat)
    requires Sane(c) && n as real <= Worth(c, After(c, m, pre), ip, t) <= c.burst as real
    ensures Worth(c, After(c, m, pre + Burst(ip, t, n)), ip, t) == Worth(c, After(c, m, pre), ip, t) - n as real
    ensures Answers(c, m, pre + Burst(ip, t, n)) == Answers(c, m, pre) + Yes(n)
    ensures n > 0 ==> ip in After(c, m, pre + Burst(ip, t, n)) && After(c, m, pre + Burst(ip, t, n))[ip].lastSeen == t
  {
    hide Admit, Worth, After, Answers, Burst, Yes;
    NextYes(Answers(c, m, pre), n + 1);
    if n == 0 {
      NoBurst(pre, ip, t);
    } else {
      var run := pre + Burst(ip, t, n - 1);
      NatAsReal(n);
      BurstWhileTokensLast(c, m, pre, ip, t, n - 1);
      NextOfBurst(pre, ip, t, n);
      NextYes(Answers(c, m, pre), n);
      OneMoreCall(c, m, run, ip, t);
      AdmitWorth(c, After(c, m, run), ip, t);
    }
  }

  lemma {:induction false} BurstIsOrdinary(c: Config, m: map<string, Bucket>, pre: seq<Event>, ip: string, t: real, n: nat, start: real, maxAge: real)
    requires Ordered(pre, start) && start <= End(pre, start) <= t && LawfulSweeps(c, m, pre, maxAge)
    ensures var run := pre + Burst(ip, t, n);
            Ordered(run, start) && start <= End(run, start) <= t && LawfulSweeps(c, m, run, maxAge) &&
            Unswept(run) == Unswept(pre) + Burst(ip, t, n)
  {
    hide After, Ordered, LawfulSweeps, Unswept, End, Burst;
    if n == 0 {
      NoBurst(pre, ip, t);
      NoBurst(Unswept(pre), ip, t);
    } else {
      var run := pre + Burst(ip, t, n - 1);
      BurstIsOrdinary(c, m, pre, ip, t, n - 1, start, maxAge);
      NextOfBurst(pre, ip, t, n);
      NextOfBurst(Unswept(pre), ip, t, n);
      OneMoreCall(c, m, run, ip, t);
      OneMoreCallInOrder(c, m, run, ip, t, start, maxAge);
    }
  }

  /** Answers already given stay. */
  lemma {:induction false} AnswersExtend(c: Config, m: map<string, Bucket>, pre: seq<Event>, ip: string, t: real, k: nat, n: nat)
    requires k <= n
    ensures Answers(c, m, pre + Burst(ip, t, k)) <= Answers(c, m, pre + Burst(ip, t, n))
  {
    hide Admit, Answers, Burst;
    if k < n {
      AnswersExtend(c, m, pre, ip, t, k, n - 1);
      NextOfBurst(pre, ip, t, n);
      OneMoreCall(c, m, pre + Burst(ip, t, n - 1), ip, t);
    }
  }

  lemma {:induction false} WholeTokens(w: real, max: nat) returns (k: nat)
    requires 0.0 <= w < max as real
    ensures k < max && k as real <= w < (k + 1) as real
  {
    k := 0;
    while (k + 1) as real <= w
      invariant k as real <= w
      decreases max - k
    {
      k := k + 1;
    }
  }

  /** With fewer tokens than calls, some call of a burst is refused. */
  lemma BurstBeyondTokens(c: Config, m: map<string, Bucket>, pre: seq<Event>, ip: string, t: real)
    requires Sane(c) && 0.0 <= Worth(c, After(c, m, pre), ip, t) < c.burst as real
    ensures Answers(c, m, pre + Burst(ip, t, c.burst)) != Answers(c, m, pre) + Yes(c.burst)
  {
    hide Admit, Worth, After, Answers, Burst;
    var k := WholeTokens(Worth(c, After(c, m, pre), ip, t), c.burst);
    var run := pre + Burst(ip, t, k);
    BurstWhileTokensLast(c, m, pre, ip, t, k);
    NextOfBurst(pre, ip, t, k + 1);
    OneMoreCall(c, m, run, ip, t);
    AdmitWorth(c, After(c, m, run), ip, t);
    NatAsReal(k + 1);
    AnswersExtend(c, m, pre, ip, t, k + 1, c.burst);
    RefusedShows(Answers(c, m, pre), Answers(c, m, pre + Burst(ip, t, c.burst)), k, c.burst);
  }

  lemma RefusedShows(before: seq<bool>, all: seq<bool>, k: nat, n: nat)
    requires k < n && before + Yes(k) + [false] <= all
    ensures all != before + Yes(n)
  {
    var i := |before| + k;
    assert !(before + Yes(k) + [false])[i];
    assert (before + Yes(n))[i];
  }

  lemma TimeBetween(c: Config, maxAge: real) returns (t: real)
    requires Sane(c) && maxAge >= 0.0 && Gain(c, maxAge) < c.burst as real
    ensures t > maxAge && 0.0 <= Gain(c, t) < c.burst as real
  {
    var full := c.burst as real / c.rate;
    assert full * c.rate == c.burst as real;
    assert (full - maxAge) * c.rate == full * c.rate - maxAge * c.rate > 0.0;
    assert full > maxAge;
    t := (maxAge + full) / 2.0;
    assert t * c.rate == (maxAge * c.rate + full * c.rate) / 2.0;
    assert maxAge * c.rate >= 0.0;
  }

  lemma OneMoreSweep(c: Config, m: map<string, Bucket>, run: seq<Event>, gone: set<string>, t: real, start: real, maxAge: real)
    requires Ordered(run, start) && start <= End(run, start) <= t && LawfulSweeps(c, m, run, maxAge)
    requires forall ip :: ip in gone && ip in After(c, m, run) ==> Stale(After(c, m, run)[ip], t, maxAge)
    ensures var swept := run + [Sweep(gone, t)];
            Ordered(swept, start) && LawfulSweeps(c, m, swept, maxAge) && End(swept, start) == t &&
            After(c, m, swept) == After(c, m, run) - gone && Answers(c, m, swept) == Answers(c, m, run) &&
            Unswept(swept) == Unswept(run)
  {
    hide Stale;
    var swept := run + [Sweep(gone, t)];
    assert swept[..|swept| - 1] == run;
  }

  /** Forgetting is observable the moment a stale bucket need not be full: for every limiter with
      maxAge * rate < burst there is a run with lawful sweeps whose answers differ. */
  lemma SweepIsObservable(c: Config, maxAge: real) returns (run: seq<Event>)
    requires Sane(c) && maxAge >= 0.0 && Gain(c, maxAge) < c.burst as real
    ensures Ordered(run, 0.0) && LawfulSweeps(c, map[], run, maxAge)
    ensures Answers(c, map[], run) != Answers(c, map[], Unswept(run))
  {
    hide Gain, Admit, Burst, Yes, After, Answers;
    var ip, n, none := "a", c.burst, map[];
    var t := TimeBetween(c, maxAge);
    EmptyRun(c, ip);
    var spent := [] + Burst(ip, 0.0, n);
    BurstWhileTokensLast(c, none, [], ip, 0.0, n);
    BurstIsOrdinary(c, none, [], ip, 0.0, n, 0.0, maxAge);
    assert Unswept(spent) == spent;
    hide Worth, Ordered, LawfulSweeps, Unswept;
    OneMoreSweep(c, none, spent, {ip}, t, 0.0, maxAge);
    var swept := spent + [Sweep({ip}, t)];
    run := swept + Burst(ip, t, n);
    BurstIsOrdinary(c, none, swept, ip, t, n, 0.0, maxAge);
    WorthOfNone(c, After(c, none, swept), ip, t);
    BurstWhileTokensLast(c, none, swept, ip, t, n);
    WorthLater(c, After(c, none, spent), ip, t);
    BurstBeyondTokens(c, none, spent, ip, t);
  }

  lemma EmptyRun(c: Config, ip: string)
    ensures After(c, map[], []) == map[] && Worth(c, map[], ip, 0.0) == c.burst as real
  {}

  lemma WorthOfNone(c: Config, m: map<string, Bucket>, ip: string, t: real)
    requires ip !in m
    ensures Worth(c, m, ip, t) == c.burst as real
  {}

  lemma WorthLater(c: Config, m: map<string, Bucket>, ip: string, t: real)
    requires Sane(c) && ip in m && m[ip].lastSeen == 0.0 && Worth(c, m, ip, 0.0) == 0.0 && 0.0 <= Gain(c, t) < c.burst as real
    ensures Worth(c, m, ip, t) == Gain(c, t)
  {
    hide Gain;
    GainGrows(c, 0.0);
    assert m[ip].tokens == 0.0;
    assert t - 0.0 == t;
  }

  /** On this run, if it is one, nobody can tell the limiter from one that never forgets. */
  predicate Indistinguishable(c: Config, run: seq<Event>, start: real, maxAge: real) {
    Ordered(run, start) && LawfulSweeps(c, map[], run, maxAge) ==>
      Answers(c, map[], run) == Answers(c, map[], Unswept(run))
  }

  /** So a sweep with a given age can be trusted exactly when a bucket refills within it. */
  lemma SweepIsInvisibleExactlyWhen(c: Config, maxAge: real)
    requires Sane(c) && maxAge >= 0.0
    ensures (forall run, start :: Indistinguishable(c, run, start, maxAge)) <==> Gain(c, maxAge) >= c.burst as real
  {
    if Gain(c, maxAge) >= c.burst as real {
      forall run, start ensures Indistinguishable(c, run, start, maxAge) {
        if Ordered(run, start) && LawfulSweeps(c, map[], run, maxAge) {
          SweptRefinesUnswept(c, run, start, maxAge);
        }
      }
    } else {
      var run := SweepIsObservable(c, maxAge);
      assert !Indistinguishable(c, run, 0.0, maxAge);
    }
  }

  // ---- the window bound

  function Allowed(c: Config, buckets: map<string, Bucket>, run: seq<Event>, ip: string): nat {
    if run == [] then 0
    else
      var n := |run| - 1;
      Allowed(c, buckets, run[..n], ip) +
      if run[n].Call? && run[n].ip == ip && Admit(c, After(c, buckets, run[..n]), ip, run[n].time).1 then 1 else 0
  }

  /** What a step does to one IP's worth at the time of the step. */
  lemma StepWorth(c: Config, buckets: map<string, Bucket>, e: Event, ip: string, t: real, maxAge: real)
    requires Sane(c) && Healthy(c, buckets, t) && t <= e.time && Gain(c, maxAge) >= c.burst as real
    requires e.Sweep? ==> forall i :: i in e.gone && i in buckets ==> Stale(buckets[i], e.time, maxAge)
    ensures var taken := if e.Call? && e.ip == ip && Admit(c, buckets, ip, e.time).1 then 1.0 else 0.0;
            Worth(c, Step(c, buckets, e), ip, e.time) == Worth(c, buckets, ip, e.time) - taken
  {
    hide Gain;
    WorthGrows(c, buckets, ip, t, e.time);
    if e.Sweep? {
      if ip in buckets && ip in e.gone {
        StaleIsFull(c, buckets[ip], e.time, maxAge);
      }
    } else if e.ip == ip {
      AdmitWorth(c, buckets, ip, e.time);
    } else if ip in buckets {
      WorthIsLocal(c, Step(c, buckets, e), buckets, ip, e.time);
    }
  }

  /** In any window, whatever other traffic and sweeps fall in it, one IP is allowed at most
      burst + rate * length requests. The window is the run: it starts in any healthy state. */
  lemma WindowBound(c: Config, buckets: map<string, Bucket>, run: seq<Event>, start: real, ip: string, maxAge: real)
    requires Sane(c) && Healthy(c, buckets, start) && Ordered(run, start)
    requires Gain(c, maxAge) >= c.burst as real && LawfulSweeps(c, buckets, run, maxAge)
    ensures Allowed(c, buckets, run, ip) as real <= c.burst as real + Gain(c, End(run, start) - start)
    ensures Gain(c, End(run, start) - start) == c.rate * (End(run, start) - start)
  {
    GainIs(c, End(run, start) - start);
    hide Gain, Worth, Allowed, After;
    Spent(c, buckets, run, start, ip, maxAge);
    TokensStayInBounds(c, buckets, run, start);
    WorthGrows(c, After(c, buckets, run), ip, End(run, start), End(run, start));
    WorthGrows(c, buckets, ip, start, start);
  }

  /** What was allowed and what is left come out of what there was and what was refilled. */
  lemma {:induction false} Spent(c: Config, buckets: map<string, Bucket>, run: seq<Event>, start: real, ip: string, maxAge: real)
    requires Sane(c) && Healthy(c, buckets, start) && Ordered(run, start)
    requires Gain(c, maxAge) >= c.burst as real && LawfulSweeps(c, buckets, run, maxAge)
    ensures start <= End(run, start)
    ensures Allowed(c, buckets, run, ip) as real + Worth(c, After(c, buckets, run), ip, End(run, start)) <=
            Worth(c, buckets, ip, start) + Gain(c, End(run, start) - start)
  {
    hide Worth, Admit, Healthy, Allowed, Gain;
    if run == [] {
      NoneAllowed(c, buckets, ip);
      GainGrows(c, 0.0);
    } else {
      var n := |run| - 1;
      var before := After(c, buckets, run[..n]);
      var t, u := End(run[..n], start), run[n].time;
      Spent(c, buckets, run[..n], start, ip, maxAge);
      TokensStayInBounds(c, buckets, run[..n], start);
      OrderedEnds(run, start);
      StepWorth(c, before, run[n], ip, t, maxAge);
      WorthGrows(c, before, ip, t, u);
      GainAdds(c, t - start, u - t);
      assert (t - start) + (u - t) == u - start;
      AllowedNext(c, buckets, run, ip);
    }
  }

  lemma NoneAllowed(c: Config, buckets: map<string, Bucket>, ip: string)
    ensures Allowed(c, buckets, [], ip) == 0
  {}

  lemma AllowedNext(c: Config, buckets: map<string, Bucket>, run: seq<Event>, ip: string)
    requires run != []
    ensures var n := |run| - 1;
            var taken := if run[n].Call? && run[n].ip == ip && Admit(c, After(c, buckets, run[..n]), ip, run[n].time).1 then 1.0 else 0.0;
            Allowed(c, buckets, run, ip) as real == Allowed(c, buckets, run[..n], ip) as real + taken
  {
    hide Admit, After;
  }

  lemma OrderedEnds(run: seq<Event>, start: real)
    requires run != [] && Ordered(run, start)
    ensures End(run[..|run| - 1], start) <= run[|run| - 1].time
  {}

  // ---- and exactly then

  predicate WithinBound(c: Config, buckets: map<string, Bucket>, run: seq<Event>, start: real, ip: string, maxAge: real) {
    Healthy(c, buckets, start) && Ordered(run, start) && LawfulSweeps(c, buckets, run, maxAge) ==>
      Allowed(c, buckets, run, ip) as real <= c.burst as real + Gain(c, End(run, start) - start)
  }

  lemma OneMoreAllowed(c: Config, m: map<string, Bucket>, run: seq<Event>, ip: string, t: real)
    ensures Allowed(c, m, run + [Call(ip, t)], ip) ==
            Allowed(c, m, run, ip) + if Admit(c, After(c, m, run), ip, t).1 then 1 else 0
  {
    hide Admit, After;
    assert (run + [Call(ip, t)])[..|run|] == run;
  }

  lemma OneMoreSweepAllowsNothing(c: Config, m: map<string, Bucket>, run: seq<Event>, gone: set<string>, t: real, ip: string)
    ensures Allowed(c, m, run + [Sweep(gone, t)], ip) == Allowed(c, m, run, ip)
  {
    hide Admit, After;
    assert (run + [Sweep(gone, t)])[..|run|] == run;
  }

  lemma {:induction false} BurstIsAllowed(c: Config, m: map<string, Bucket>, pre: seq<Event>, ip: string, t: real, n: nat)
    requires Sane(c) && n as real <= Worth(c, After(c, m, pre), ip, t) <= c.burst as real
    ensures Allowed(c, m, pre + Burst(ip, t, n), ip) == Allowed(c, m, pre, ip) + n
  {
    hide Admit, Worth, After, Answers, Burst, Yes, Allowed;
    if n == 0 {
      NoBurst(pre, ip, t);
    } else {
      var run := pre + Burst(ip, t, n - 1);
      NatAsReal(n);
      BurstIsAllowed(c, m, pre, ip, t, n - 1);
      BurstWhileTokensLast(c, m, pre, ip, t, n - 1);
      NextOfBurst(pre, ip, t, n);
      OneMoreAllowed(c, m, run, ip, t);
      AdmitWorth(c, After(c, m, run), ip, t);
    }
  }

  /** When a bucket need not be full again by the time it is stale, sweeping it away refills it early:
      twice the burst goes through in less time than one burst takes to refill. */
  lemma SweepOverdraws(c: Config, maxAge: real) returns (run: seq<Event>)
    requires Sane(c) && maxAge >= 0.0 && Gain(c, maxAge) < c.burst as real
    ensures Ordered(run, 0.0) && LawfulSweeps(c, map[], run, maxAge)
    ensures Gain(c, End(run, 0.0)) < c.burst as real && Allowed(c, map[], run, "a") == 2 * c.burst
  {
    hide Gain, Admit, Burst, Yes, After, Answers, Allowed;
    var ip, n, none := "a", c.burst, map[];
    var t := TimeBetween(c, maxAge);
    EmptyRun(c, ip);
    NoneAllowed(c, none, ip);
    var spent := [] + Burst(ip, 0.0, n);
    BurstWhileTokensLast(c, none, [], ip, 0.0, n);
    BurstIsAllowed(c, none, [], ip, 0.0, n);
    BurstIsOrdinary(c, none, [], ip, 0.0, n, 0.0, maxAge);
    hide Worth, Ordered, LawfulSweeps, Unswept;
    OneMoreSweep(c, none, spent, {ip}, t, 0.0, maxAge);
    OneMoreSweepAllowsNothing(c, none, spent, {ip}, t, ip);
    var swept := spent + [Sweep({ip}, t)];
    WorthOfNone(c, After(c, none, swept), ip, t);
    BurstIsAllowed(c, none, swept, ip, t, n);
    BurstIsOrdinary(c, none, swept, ip, t, n, 0.0, maxAge);
    run := swept + Burst(ip, t, n);
    LastOfBurst(swept, ip, t, n);
  }

  lemma LastOfBurst(pre: seq<Event>, ip: string, t: real, n: nat)
    requires n > 0
    ensures End(pre + Burst(ip, t, n), 0.0) == t
  {
    NextOfBurst(pre, ip, t, n);
    hide Burst;
  }

  /** The bound holds over every window of every ordered run with lawful sweeps exactly when a bucket
      refills within the age it is swept at. */
  lemma WindowBoundExactlyWhen(c: Config, maxAge: real)
    requires Sane(c) && maxAge >= 0.0
    ensures (forall buckets, run, start, ip :: WithinBound(c, buckets, run, start, ip, maxAge)) <==>
            Gain(c, maxAge) >= c.burst as real
  {
    hide Gain, Healthy, Ordered, LawfulSweeps, Allowed;
    if Gain(c, maxAge) >= c.burst as real {
      forall buckets, run, start, ip ensures WithinBound(c, buckets, run, start, ip, maxAge) {
        if Healthy(c, buckets, start) && Ordered(run, start) && LawfulSweeps(c, buckets, run, maxAge) {
          WindowBound(c, buckets, run, start, ip, maxAge);
        }
      }
    } else {
      var run := SweepOverdraws(c, maxAge);
      NothingIsHealthy(c, 0.0);
      assert End(run, 0.0) - 0.0 == End(run, 0.0);
      assert (2 * c.burst) as real == c.burst as real + c.burst as real;
      assert !WithinBound(c, map[], run, 0.0, "a", maxAge);
    }
  }

  lemma NothingIsHealthy(c: Config, t: real)
    ensures Healthy(c, map[], t)
  {}

  // ---- the limiter's own sweep

  /** What cleanup removes, when it reads the clock once per bucket. */
  function Aged(buckets: map<string, Bucket>, now: string -> real, maxAge: real): set<string> {
    set ip | ip in buckets && Stale(buckets[ip], now(ip), maxAge)
  }

  /** Such a sweep is a lawful Sweep event at any time none of its readings is past, so every run with
      calls of Allow and Cleanup is a run of the machine. */
  lemma CleanupIsALawfulSweep(c: Config, buckets: map<string, Bucket>, now: string -> real, maxAge: real, t: real)
    requires forall ip :: ip in buckets ==> now(ip) <= t
    ensures Step(c, buckets, Sweep(Aged(buckets, now, maxAge), t)) ==
            map ip | ip in buckets && !Stale(buckets[ip], now(ip), maxAge) :: buckets[ip]
    ensures forall ip :: ip in Aged(buckets, now, maxAge) && ip in buckets ==> Stale(buckets[ip], t, maxAge)
  {}
}
