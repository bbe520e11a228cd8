/** The login guard: an address with too many failures in a row is locked out for a while. Times are
    seconds from the clock's zero, and each call reads the clock once. */
module LoginGuards {

  datatype Policy = Policy(maxFails: nat, lockout: real)

  /** lockedUntil is 0 until there is a lockout. */
  datatype Login = Login(failures: nat, lockedUntil: real, lastSeen: real)

  /** A success reads no clock; its time is only there to order a run. */
  datatype Event =
    | Failed(ip: string, t: real)
    | Succeeded(ip: string, t: real)
    | Swept(t: real, maxAge: real)

  function Fail(p: Policy, was: Login, t: real): Login {
    var failures := was.failures + 1;
    Login(failures, if failures >= p.maxFails then t + p.lockout else was.lockedUntil, t)
  }

  predicate Idle(a: Login, t: real, maxAge: real) {
    t - a.lastSeen > maxAge && t >= a.lockedUntil
  }

  function Step(p: Policy, attempts: map<string, Login>, e: Event): map<string, Login> {
    match e
    case Failed(ip, t) => attempts[ip := Fail(p, if ip in attempts then attempts[ip] else Login(0, 0.0, 0.0), t)]
    case Succeeded(ip, _) => attempts - {ip}
    case Swept(t, maxAge) => map ip | ip in attempts && !Idle(attempts[ip], t, maxAge) :: attempts[ip]
  }

  /** The guard after a run of calls, from the start of the process. */
  function After(p: Policy, run: seq<Event>): map<string, Login> {
    if run == [] then map[] else Step(p, After(p, run[..|run| - 1]), run[|run| - 1])
  }

  predicate LockedAt(attempts: map<string, Login>, ip: string, t: real) {
    ip in attempts && t < attempts[ip].lockedUntil
  }

  class LoginGuard {
    var attempts: map<string, Login>
    const policy: Policy

    constructor (maxFails: nat, lockout: real)
      requires maxFails > 0
      ensures attempts == map[] == After(policy, []) && policy == Policy(maxFails, lockout)
    {
      attempts, policy := map[], Policy(maxFails, lockout);
    }

    predicate Locked(ip: string, t: real)
      reads this
    {
      LockedAt(attempts, ip, t)
    }

    method RecordFailure(ip: string, t: real)
      modifies this
      ensures attempts == Step(policy, old(attempts), Failed(ip, t))
      ensures attempts.Keys == old(attempts).Keys + {ip}
      ensures forall i :: i in old(attempts) && i != ip ==> attempts[i] == old(attempts)[i]
      ensures attempts[ip].failures == (if ip in old(attempts) then old(attempts)[ip].failures else 0) + 1
      ensures attempts[ip].lastSeen == t
      ensures attempts[ip].failures >= policy.maxFails ==> attempts[ip].lockedUntil == t + policy.lockout
      ensures attempts[ip].failures < policy.maxFails ==>
                attempts[ip].lockedUntil == if ip in old(attempts) then old(attempts)[ip].lockedUntil else 0.0
    {
      var s := if ip in attempts then attempts[ip] else Login(0, 0.0, 0.0);
      s := s.(failures := s.failures + 1, lastSeen := t);
      if s.failures >= policy.maxFails {
        s := s.(lockedUntil := t + policy.lockout);
      }
      attempts := attempts[ip := s];
    }

    method RecordSuccess(ip: string, ghost t: real)
      modifies this
      ensures attempts == old(attempts) - {ip} == Step(policy, old(attempts), Succeeded(ip, t))
    {
      attempts := attempts - {ip};
    }

    method IsLocked(ip: string, t: real) returns (locked: bool)
      ensures locked == Locked(ip, t)
    {
      locked := ip in attempts && t < attempts[ip].lockedUntil;
    }

    /** Forgets idle entries, but never one that is locked: no answer of IsLocked changes, now or
        later. */
    method Cleanup(t: real, maxAge: real)
      modifies this
      ensures attempts == Step(policy, old(attempts), Swept(t, maxAge))
      ensures forall ip, u | t <= u :: Locked(ip, u) == old(Locked(ip, u))
      ensures forall ip :: ip in attempts <==>
                ip in old(attempts) && !(t - old(attempts)[ip].lastSeen > maxAge && t >= old(attempts)[ip].lockedUntil)
    {
      attempts := map ip | ip in attempts && !(t - attempts[ip].lastSeen > maxAge && t >= attempts[ip].lockedUntil) :: attempts[ip];
    }
  }

  // ---- when an address is locked

  predicate OnTheClock(run: seq<Event>) {
    forall i :: 0 <= i < |run| ==> run[i].t >= 0.0
  }

  predicate Ordered(run: seq<Event>) {
    OnTheClock(run) && forall i, j :: 0 <= i <= j < |run| ==> run[i].t <= run[j].t
  }

  /** When the address last failed. */
  function LastFailure(run: seq<Event>, ip: string): real {
    if run == [] then 0.0
    else
      var e := run[|run| - 1];
      if e.Failed? && e.ip == ip then e.t else LastFailure(run[..|run| - 1], ip)
  }

  /** The failures of the address since its last success, and since the last sweep that found it idle:
      longer than maxAge after its last failure, and not within the lockout of one that locked it. */
  function Streak(p: Policy, run: seq<Event>, ip: string): nat {
    if run == [] then 0
    else
      var before, e := run[..|run| - 1], run[|run| - 1];
      var n := Streak(p, before, ip);
      match e
      case Failed(i, _) => if i == ip then n + 1 else n
      case Succeeded(i, _) => if i == ip then 0 else n
      case Swept(t, maxAge) =>
        if t - LastFailure(before, ip) > maxAge && (n < p.maxFails || t >= LastFailure(before, ip) + p.lockout) then 0 else n
  }

  /** What the guard holds of an address is its streak. */
  lemma {:induction false} HoldsTheStreak(p: Policy, run: seq<Event>, ip: string)
    requires p.maxFails > 0 && OnTheClock(run)
    ensures var attempts, n := After(p, run), Streak(p, run, ip);
            (ip in attempts <==> n > 0) &&
            (n > 0 ==> attempts[ip] ==
                       Login(n, if n >= p.maxFails then LastFailure(run, ip) + p.lockout else 0.0, LastFailure(run, ip)))
  {
    if run != [] {
      HoldsTheStreak(p, run[..|run| - 1], ip);
    }
  }

  /** Over any run, an address is locked at t exactly if its last failure was at least the maxFails-th
      in a row and t is before that failure plus the lockout. */
  lemma LockedExactlyWhen(p: Policy, run: seq<Event>, ip: string, t: real)
    requires p.maxFails > 0 && OnTheClock(run) && t >= 0.0
    ensures LockedAt(After(p, run), ip, t) <==>
            Streak(p, run, ip) >= p.maxFails && t < LastFailure(run, ip) + p.lockout
  {
    HoldsTheStreak(p, run, ip);
  }

  // ---- how often an address can fail

  function Failures(run: seq<Event>, ip: string): nat {
    if run == [] then 0
    else
      var e := run[|run| - 1];
      Failures(run[..|run| - 1], ip) + if e.Failed? && e.ip == ip then 1 else 0
  }

  /** Failures recorded while the address was locked: by logins that had looked before the lock fell. */
  function Late(p: Policy, run: seq<Event>, ip: string): nat {
    if run == [] then 0
    else
      var before, e := run[..|run| - 1], run[|run| - 1];
      Late(p, before, ip) + if e.Failed? && e.ip == ip && LockedAt(After(p, before), ip, e.t) then 1 else 0
  }

  predicate NoSuccess(run: seq<Event>, from: nat, ip: string) {
    forall i :: from <= i < |run| && run[i].Succeeded? ==> run[i].ip != ip
  }

  predicate SweepsAtLeast(run: seq<Event>, age: real) {
    forall i :: 0 <= i < |run| && run[i].Swept? ==> run[i].maxAge >= age
  }

  /** What a stretch of time is worth. */
  function Worth(rate: real, stretch: real): real {
    rate * stretch
  }

  lemma WorthGrows(rate: real, a: real, b: real)
    requires rate >= 0.0 && a <= b
    ensures Worth(rate, a) <= Worth(rate, b)
  {}

  lemma WorthAdds(rate: real, a: real, b: real)
    ensures Worth(rate, a + b) == Worth(rate, a) + Worth(rate, b)
  {}

  /** A rate that allows one failure a lockout, and maxFails in the age a sweep asks for. */
  predicate Covers(p: Policy, rate: real, age: real) {
    rate >= 0.0 && Worth(rate, p.lockout) >= 1.0 && Worth(rate, age) >= p.maxFails as real
  }

  /** What an address did from some point of a run on, and where it stands. */
  datatype Account = Account(made: int, late: int, streak: nat, last: real)

  function Since(p: Policy, run: seq<Event>, from: nat, ip: string): Account
    requires from <= |run|
  {
    Account(Failures(run, ip) - Failures(run[..from], ip), Late(p, run, ip) - Late(p, run[..from], ip),
            Streak(p, run, ip), LastFailure(run, ip))
  }

  /** Failures that would not find the address locked. */
  function Free(p: Policy, streak: nat): nat {
    if streak >= p.maxFails then 0 else p.maxFails - streak
  }

  /** The account is within bounds; mark is a time up to which it has been settled. */
  predicate Settled(p: Policy, a: Account, rate: real, start: real, mark: real) {
    start <= mark && 0 <= a.late <= a.made &&
    (a.made == 0 ==> mark == start) &&
    (a.made > 0 && a.streak > 0 ==> mark <= a.last) &&
    (a.made + Free(p, a.streak) - a.late) as real <= p.maxFails as real + Worth(rate, mark - start)
  }

  /** One more failure: a free one, one too late to be stopped, or one after a lockout. */
  lemma FailureSettles(p: Policy, a: Account, t: real, rate: real, start: real, mark: real) returns (next: real)
    requires p.maxFails > 0 && rate >= 0.0 && Worth(rate, p.lockout) >= 1.0
    requires Settled(p, a, rate, start, mark) && mark <= t
    ensures var locked := a.streak >= p.maxFails && t < a.last + p.lockout;
            Settled(p, Account(a.made + 1, a.late + if locked then 1 else 0, a.streak + 1, t), rate, start, next)
    ensures next <= t
  {
    var locked := a.streak >= p.maxFails && t < a.last + p.lockout;
    if a.streak < p.maxFails || locked || a.made == 0 {
      next := mark;
    } else {
      next := t;
      WorthAdds(rate, mark - start, t - mark);
      WorthGrows(rate, p.lockout, t - mark);
    }
    hide Worth;
  }

  /** Forgetting makes maxFails more of them free, which an idle stretch of that age is worth. */
  lemma ForgettingSettles(p: Policy, a: Account, t: real, rate: real, age: real, start: real, mark: real) returns (next: real)
    requires Covers(p, rate, age) && Settled(p, a, rate, start, mark) && mark <= t
    requires a.streak > 0 ==> t - a.last > age
    ensures Settled(p, a.(streak := 0), rate, start, next) && next <= t
  {
    if a.streak == 0 || a.made == 0 {
      next := mark;
    } else {
      next := t;
      WorthAdds(rate, mark - start, t - mark);
      WorthGrows(rate, age, t - mark);
    }
    hide Worth;
  }

  lemma OneMore(p: Policy, run: seq<Event>, from: nat, ip: string)
    requires p.maxFails > 0 && OnTheClock(run) && from < |run|
    requires !(run[|run| - 1].Succeeded? && run[|run| - 1].ip == ip)
    ensures var before, e := run[..|run| - 1], run[|run| - 1];
            var a := Since(p, before, from, ip);
            Since(p, run, from, ip) ==
              if e.Failed? && e.ip == ip
              then Account(a.made + 1, a.late + if a.streak >= p.maxFails && e.t < a.last + p.lockout then 1 else 0, a.streak + 1, e.t)
              else if e.Swept? && e.t - a.last > e.maxAge && (a.streak < p.maxFails || e.t >= a.last + p.lockout)
              then a.(streak := 0)
              else a
  {
    var before, e := run[..|run| - 1], run[|run| - 1];
    assert before[..from] == run[..from];
    LockedExactlyWhen(p, before, ip, e.t);
  }

  lemma NothingYet(p: Policy, run: seq<Event>, ip: string, rate: real, start: real)
    ensures Settled(p, Since(p, run, |run|, ip), rate, start, start)
  {
    assert run[..|run|] == run;
  }

  /** The conditions of a window also hold one event earlier. */
  lemma Earlier(run: seq<Event>, from: nat, ip: string, age: real)
    requires Ordered(run) && SweepsAtLeast(run, age) && from < |run| && NoSuccess(run, from, ip)
    ensures var before, e := run[..|run| - 1], run[|run| - 1];
            Ordered(before) && SweepsAtLeast(before, age) && NoSuccess(before, from, ip) &&
            (from < |before| ==> before[from] == run[from] && before[|before| - 1].t <= e.t) && run[from].t <= e.t &&
            OnTheClock(run) && !(e.Succeeded? && e.ip == ip) && (e.Swept? ==> e.maxAge >= age)
  {}

  lemma {:induction false} StaysSettled(p: Policy, run: seq<Event>, from: nat, ip: string, rate: real, age: real, start: real)
    returns (mark: real)
    requires p.maxFails > 0 && Ordered(run) && SweepsAtLeast(run, age) && Covers(p, rate, age)
    requires from <= |run| && NoSuccess(run, from, ip) && (from < |run| ==> start <= run[from].t)
    ensures Settled(p, Since(p, run, from, ip), rate, start, mark)
    ensures if from < |run| then mark <= run[|run| - 1].t else mark == start
    decreases |run|
  {
    hide Settled, Since, NoSuccess, SweepsAtLeast, Ordered, OnTheClock, Worth;
    if |run| == from {
      NothingYet(p, run, ip, rate, start);
      mark := start;
    } else {
      var before, e := run[..|run| - 1], run[|run| - 1];
      Earlier(run, from, ip, age);
      mark := StaysSettled(p, before, from, ip, rate, age, start);
      OneMore(p, run, from, ip);
      var a := Since(p, before, from, ip);
      if e.Failed? && e.ip == ip {
        mark := FailureSettles(p, a, e.t, rate, start, mark);
      } else if e.Swept? && e.t - a.last > e.maxAge {
        hide LastFailure, Streak;
        var next := ForgettingSettles(p, a, e.t, rate, age, start, mark);
        mark := if a.streak < p.maxFails || e.t >= a.last + p.lockout then next else mark;
      }
    }
  }

  /** Over any window of any ordered run in which the address never succeeds, it fails at most maxFails
      times, once a lockout or maxFails times per age of the sweeps, whichever is more, and once for
      each login that had looked before the lock fell. */
  lemma FailuresAreBounded(p: Policy, run: seq<Event>, from: nat, ip: string, rate: real, age: real, start: real, end: real)
    requires p.maxFails > 0 && Ordered(run) && SweepsAtLeast(run, age) && Covers(p, rate, age)
    requires from <= |run| && NoSuccess(run, from, ip) && start <= end
    requires from < |run| ==> start <= run[from].t && run[|run| - 1].t <= end
    ensures var late := Late(p, run, ip) - Late(p, run[..from], ip);
            (Failures(run, ip) - Failures(run[..from], ip) - late) as real <= p.maxFails as real + Worth(rate, end - start)
  {
    var mark := StaysSettled(p, run, from, ip, rate, age, start);
    WorthGrows(rate, mark - start, end - start);
    hide Worth, Streak, LastFailure, Late, Failures;
  }

  // ---- the bound is met

  /** The run with n more failures of the address at time t. */
  function Failing(run: seq<Event>, ip: string, t: real, n: nat): seq<Event> {
    if n == 0 then run else Failing(run, ip, t, n - 1) + [Failed(ip, t)]
  }

  lemma OneAppended(p: Policy, run: seq<Event>, ip: string, e: Event)
    ensures (run + [e])[..|run|] == run
    ensures Failures(run + [e], ip) == Failures(run, ip) + if e.Failed? && e.ip == ip then 1 else 0
    ensures Late(p, run + [e], ip) ==
            Late(p, run, ip) + if e.Failed? && e.ip == ip && LockedAt(After(p, run), ip, e.t) then 1 else 0
    ensures e.Failed? && e.ip == ip ==> Streak(p, run + [e], ip) == Streak(p, run, ip) + 1 && LastFailure(run + [e], ip) == e.t
    ensures e.Swept? && e.t - LastFailure(run, ip) > e.maxAge && e.t >= LastFailure(run, ip) + p.lockout ==> Streak(p, run + [e], ip) == 0
  {
    assert (run + [e])[..|run|] == run;
  }

  /** The times of a run lie between 0 and t, in order, and its sweeps ask for that age. */
  predicate UpTo(run: seq<Event>, t: real, age: real) {
    Ordered(run) && SweepsAtLeast(run, age) && (forall i :: 0 <= i < |run| ==> run[i].t <= t && !run[i].Succeeded?)
  }

  lemma UpToGrows(run: seq<Event>, t: real, age: real, e: Event)
    requires UpTo(run, t, age) && 0.0 <= t <= e.t && !e.Succeeded? && (e.Swept? ==> e.maxAge >= age)
    ensures UpTo(run + [e], e.t, age)
  {}

  lemma {:induction false} AllOfThemCount(p: Policy, run: seq<Event>, ip: string, t: real, n: nat, age: real)
    requires p.maxFails > 0 && n <= p.maxFails && t >= 0.0 && UpTo(run, t, age) && Streak(p, run, ip) == 0
    ensures var e := Failing(run, ip, t, n);
            UpTo(e, t, age) && Failures(e, ip) == Failures(run, ip) + n && Late(p, e, ip) == Late(p, run, ip) &&
            Streak(p, e, ip) == n && (n > 0 ==> LastFailure(e, ip) == t)
  {
    hide LockedAt, Streak, Late, Failures, LastFailure, UpTo, After;
    if n > 0 {
      var before := Failing(run, ip, t, n - 1);
      AllOfThemCount(p, run, ip, t, n - 1, age);
      NotLocked(p, before, ip, t, age);
      OneAppended(p, before, ip, Failed(ip, t));
      UpToGrows(before, t, age, Failed(ip, t));
    }
  }

  lemma NotLocked(p: Policy, run: seq<Event>, ip: string, t: real, age: real)
    requires p.maxFails > 0 && UpTo(run, t, age) && t >= 0.0 && Streak(p, run, ip) < p.maxFails
    ensures !LockedAt(After(p, run), ip, t)
  {
    LockedExactlyWhen(p, run, ip, t);
  }

  /** When round k takes place. */
  function RoundTime(gap: real, k: nat): real {
    k as real * gap
  }

  lemma NextRound(gap: real, k: nat)
    requires k > 0 && gap >= 0.0
    ensures RoundTime(gap, k) == RoundTime(gap, k - 1) + gap && RoundTime(gap, k - 1) >= 0.0
  {}

  /** maxFails failures at once, and again behind a sweep after every gap. */
  function Rounds(p: Policy, ip: string, age: real, gap: real, k: nat): seq<Event> {
    var t := RoundTime(gap, k);
    Failing(if k == 0 then [] else Rounds(p, ip, age, gap, k - 1) + [Swept(t, age)], ip, t, p.maxFails)
  }

  /** One more round: the sweep forgets the address, and it starts over. */
  lemma OneRound(p: Policy, before: seq<Event>, ip: string, was: real, t: real, age: real)
    requires p.maxFails > 0 && 0.0 <= was && t - was > age >= 0.0 && t - was >= p.lockout
    requires UpTo(before, was, age) && LastFailure(before, ip) == was
    ensures var run := Failing(before + [Swept(t, age)], ip, t, p.maxFails);
            UpTo(run, t, age) && Failures(run, ip) == Failures(before, ip) + p.maxFails && Late(p, run, ip) == Late(p, before, ip) &&
            LastFailure(run, ip) == t
  {
    hide Streak, Late, Failures, LastFailure, UpTo;
    OneAppended(p, before, ip, Swept(t, age));
    UpToGrows(before, was, age, Swept(t, age));
    AllOfThemCount(p, before + [Swept(t, age)], ip, t, p.maxFails, age);
  }

  /** With gaps past both the age and the lockout, maxFails failures more come through in every gap,
      none of them late: the bound of FailuresAreBounded is met for a rate of maxFails per gap. */
  lemma {:induction false} FailuresReachTheBound(p: Policy, ip: string, age: real, gap: real, k: nat)
    requires p.maxFails > 0 && age >= 0.0 && gap > age && gap >= p.lockout
    ensures var run := Rounds(p, ip, age, gap, k);
            Ordered(run) && SweepsAtLeast(run, age) && NoSuccess(run, 0, ip) &&
            (forall i :: 0 <= i < |run| ==> run[i].t <= k as real * gap) &&
            Failures(run, ip) == (k + 1) * p.maxFails && Late(p, run, ip) == 0
  {
    RoundsGoOn(p, ip, age, gap, k);
    MadeInAll(p, k);
    hide Rounds, Made, Failures, Late, LastFailure;
  }

  /** maxFails in every round. */
  function Made(p: Policy, k: nat): nat {
    if k == 0 then p.maxFails else Made(p, k - 1) + p.maxFails
  }

  lemma {:induction false} MadeInAll(p: Policy, k: nat)
    ensures Made(p, k) == (k + 1) * p.maxFails
  {
    if k > 0 {
      MadeInAll(p, k - 1);
    }
  }

  lemma {:induction false} RoundsGoOn(p: Policy, ip: string, age: real, gap: real, k: nat)
    requires p.maxFails > 0 && age >= 0.0 && gap > age && gap >= p.lockout
    ensures var run := Rounds(p, ip, age, gap, k);
            UpTo(run, RoundTime(gap, k), age) && LastFailure(run, ip) == RoundTime(gap, k) &&
            Failures(run, ip) == Made(p, k) && Late(p, run, ip) == 0
  {
    if k == 0 {
      AllOfThemCount(p, [], ip, 0.0, p.maxFails, age);
    } else {
      RoundsGoOn(p, ip, age, gap, k - 1);
      NextRound(gap, k);
      hide Streak, Late, Failures, LastFailure, UpTo, Failing, RoundTime;
      OneRound(p, Rounds(p, ip, age, gap, k - 1), ip, RoundTime(gap, k - 1), RoundTime(gap, k), age);
    }
  }
}
