/** The other side of the limiter's bound: nobody is refused who has not used up what was there. */
module RateLimitService {
  import opened RateLimit

  /** How worth moves with time: by what is gained, up to the burst. */
  lemma WorthLaterOn(c: Config, buckets: map<string, Bucket>, ip: string, t: real, u: real)
    requires Sane(c) && Healthy(c, buckets, t) && t <= u
    ensures Worth(c, buckets, ip, u) == Min(c.burst as real, Worth(c, buckets, ip, t) + Gain(c, u - t))
  {
    hide Gain;
    GainGrows(c, u - t);
    if ip in buckets {
      var b := buckets[ip];
      GainGrows(c, t - b.lastSeen);
      GainAdds(c, t - b.lastSeen, u - t);
      assert (t - b.lastSeen) + (u - t) == u - b.lastSeen;
    }
  }

  /** What an event leaves an address, at the time of the event: a call of its own that is allowed takes
      one, being swept fills it, anything else changes nothing. */
  lemma WorthAfterEvent(c: Config, buckets: map<string, Bucket>, e: Event, ip: string, t: real)
    requires Sane(c) && Healthy(c, buckets, t) && t <= e.time
    ensures Worth(c, Step(c, buckets, e), ip, e.time) ==
            if e.Call? && e.ip == ip then Worth(c, buckets, ip, e.time) - (if Admit(c, buckets, ip, e.time).1 then 1.0 else 0.0)
            else if e.Sweep? && ip in e.gone then c.burst as real
            else Worth(c, buckets, ip, e.time)
  {
    hide Gain;
    WorthGrows(c, buckets, ip, t, e.time);
    if e.Call? {
      if e.ip == ip {
        AdmitWorth(c, buckets, ip, e.time);
      } else if ip in buckets {
        WorthIsLocal(c, Step(c, buckets, e), buckets, ip, e.time);
      }
    } else if ip in buckets && ip !in e.gone {
      WorthIsLocal(c, Step(c, buckets, e), buckets, ip, e.time);
    }
  }

  /** The account since the last time the address had its whole burst: from event i, at time s. */
  predicate Accounts(c: Config, run: seq<Event>, start: real, ip: string, i: nat, s: real) {
    i <= |run| && start <= s <= End(run, start) && (i < |run| ==> s <= run[i].time) &&
    Worth(c, After(c, map[], run), ip, End(run, start)) ==
      c.burst as real + Gain(c, End(run, start) - s) - (Allowed(c, map[], run, ip) - Allowed(c, map[], run[..i], ip)) as real
  }

  lemma {:induction false} SinceItWasFull(c: Config, run: seq<Event>, start: real, ip: string) returns (i: nat, s: real)
    requires Sane(c) && Ordered(run, start)
    ensures start <= End(run, start) && Accounts(c, run, start, ip, i, s)
  {
    hide Gain, Worth, Admit, Allowed, Healthy;
    if run == [] {
      i, s := 0, start;
      NothingYet(c, start, ip);
    } else {
      var n := |run| - 1;
      var before, t, u := After(c, map[], run[..n]), End(run[..n], start), run[n].time;
      i, s := SinceItWasFull(c, run[..n], start, ip);
      NothingIsHealthy(c, start);
      TokensStayInBounds(c, map[], run[..n], start);
      OrderedEnds(run, start);
      WorthLaterOn(c, before, ip, t, u);
      WorthAfterEvent(c, before, run[n], ip, t);
      AllowedNext(c, map[], run, ip);
      GainAdds(c, t - s, u - t);
      assert (t - s) + (u - t) == u - s;
      assert run[..n][..i] == run[..i];
      GainGrows(c, 0.0);
      if (run[n].Sweep? && ip in run[n].gone) || Worth(c, before, ip, u) == c.burst as real {
        i, s := n, u;
      }
    }
  }

  lemma NothingYet(c: Config, start: real, ip: string)
    ensures Worth(c, map[], ip, start) == c.burst as real && Gain(c, start - start) == 0.0 && Allowed(c, map[], [], ip) == 0
  {}

  /** A call is refused only to an address that has used up the burst, and all that was gained since,
      from some point on, but for less than one token: there the calls allowed are more than burst - 1
      and rate times the time. */
  lemma RefusedOnlyWhenSpent(c: Config, run: seq<Event>, start: real, ip: string, t: real) returns (i: nat, s: real)
    requires Sane(c) && Ordered(run, start) && start <= End(run, start) <= t
    requires !Admit(c, After(c, map[], run), ip, t).1
    ensures i < |run| && start <= s <= run[i].time
    ensures (Allowed(c, map[], run, ip) - Allowed(c, map[], run[..i], ip)) as real > c.burst as real - 1.0 + c.rate * (t - s)
  {
    hide Worth, Allowed, Healthy, Admit, Gain;
    i, s := RefusedWhenSpent(c, run, start, ip, t);
    GainIs(c, t - s);
  }

  lemma RefusedWhenSpent(c: Config, run: seq<Event>, start: real, ip: string, t: real) returns (i: nat, s: real)
    requires Sane(c) && Ordered(run, start) && start <= End(run, start) <= t
    requires !Admit(c, After(c, map[], run), ip, t).1
    ensures i < |run| && start <= s <= run[i].time
    ensures (Allowed(c, map[], run, ip) - Allowed(c, map[], run[..i], ip)) as real > c.burst as real - 1.0 + Gain(c, t - s)
  {
    hide Gain, Worth, Allowed, Healthy;
    i, s := SinceItWasFull(c, run, start, ip);
    var end := End(run, start);
    NothingIsHealthy(c, start);
    TokensStayInBounds(c, map[], run, start);
    WorthLaterOn(c, After(c, map[], run), ip, end, t);
    GainAdds(c, end - s, t - end);
    assert (end - s) + (t - end) == t - s;
    GainGrows(c, t - s);
    assert run[..|run|] == run;
  }

  /** The calls of one address lie so far apart that each gap is worth a token. */
  predicate Spaced(c: Config, run: seq<Event>, ip: string) {
    forall i, j :: 0 <= i < j < |run| && run[i].Call? && run[j].Call? && run[i].ip == ip && run[j].ip == ip ==>
      EarnsOne(c, run[j].time - run[i].time)
  }

  predicate EarnsOne(c: Config, elapsed: real) {
    c.rate * elapsed >= 1.0
  }

  lemma EarnsOneIsGain(c: Config, elapsed: real)
    ensures EarnsOne(c, elapsed) <==> Gain(c, elapsed) >= 1.0
  {}

  lemma {:induction false} OwnCallIsLast(c: Config, run: seq<Event>, start: real, ip: string)
    requires Ordered(run, start)
    ensures ip in After(c, map[], run) ==>
              exists j :: 0 <= j < |run| && run[j].Call? && run[j].ip == ip && run[j].time == After(c, map[], run)[ip].lastSeen
  {
    hide Worth;
    if run != [] {
      var n := |run| - 1;
      OwnCallIsLast(c, run[..n], start, ip);
      if ip in After(c, map[], run) && ip in After(c, map[], run[..n]) && !(run[n].Call? && run[n].ip == ip) {
        var j :| 0 <= j < n && run[..n][j].Call? && run[..n][j].ip == ip && run[..n][j].time == After(c, map[], run[..n])[ip].lastSeen;
        assert run[j].time == After(c, map[], run)[ip].lastSeen;
      } else if ip in After(c, map[], run) {
        assert run[n].time == After(c, map[], run)[ip].lastSeen;
      }
    }
  }

  /** A caller that keeps to the rate is never refused, whatever else is called or swept. */
  lemma CallersWithinTheRateAreServed(c: Config, run: seq<Event>, start: real, ip: string, n: nat)
    requires Sane(c) && Ordered(run, start) && Spaced(c, run, ip)
    requires n < |run| && run[n] == Call(ip, run[n].time)
    ensures Admit(c, After(c, map[], run[..n]), ip, run[n].time).1
  {
    hide Gain, After, Healthy, EarnsOne;
    OrderedFront(run, start, n);
    var before := After(c, map[], run[..n]);
    NothingIsHealthy(c, start);
    TokensStayInBounds(c, map[], run[..n], start);
    OwnCallIsLast(c, run[..n], start, ip);
    if ip in before {
      var j :| 0 <= j < n && run[..n][j].Call? && run[..n][j].ip == ip && run[..n][j].time == before[ip].lastSeen;
      assert run[j] == run[..n][j];
      EarnsOneIsGain(c, run[n].time - run[j].time);
      TokensAreNotNegative(c, before, ip, End(run[..n], start));
    }
  }

  lemma TokensAreNotNegative(c: Config, buckets: map<string, Bucket>, ip: string, t: real)
    requires Healthy(c, buckets, t) && ip in buckets
    ensures buckets[ip].tokens >= 0.0
  {}

  lemma {:induction false} OrderedFront(run: seq<Event>, start: real, n: nat)
    requires Ordered(run, start) && n <= |run|
    ensures Ordered(run[..n], start)
    decreases |run|
  {
    if n < |run| {
      OrderedFront(run[..|run| - 1], start, n);
      assert run[..|run| - 1][..n] == run[..n];
    } else {
      assert run[..n] == run;
    }
  }

  /** Every call is counted for its address, a refused one also as throttled, and no other address is
      touched. */
  lemma CallsAreCounted(c: Config, buckets: map<string, Bucket>, ip: string, t: real)
    ensures var (after, ok) := Admit(c, buckets, ip, t);
            after.Keys == buckets.Keys + {ip} &&
            after[ip].requests == (if ip in buckets then buckets[ip].requests else 0) + 1 &&
            after[ip].throttled == (if ip in buckets then buckets[ip].throttled else 0) + (if ok then 0 else 1) &&
            after[ip].lastSeen == t &&
            forall other :: other in buckets && other != ip ==> after[other] == buckets[other]
  {
    hide Worth;
  }
}
