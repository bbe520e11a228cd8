/** How long a code can be redeemed: until it expires, unless it is spent or its client or user goes,
    and what pruning clients has to do with that. */
module OAuthRedeem {
  import opened Scopes
  import opened OAuthTables
  import opened OAuthInvariant
  import opened OAuthRuns
  import opened OAuthHistory
  import opened OAuthReplay

  /** Someone presented the code in time, with whatever outcome of the caller's check. */
  predicate Presented(run: seq<Event>, i: nat, raw: nat, expires: int) {
    exists k :: i <= k < |run| && Presents(run[k], raw, expires)
  }

  predicate Presents(e: Event, raw: nat, expires: int) {
    e.op.Redeem? && e.op.code == raw && e.now < expires
  }

  lemma PresentedNext(run: seq<Event>, i: nat, raw: nat, expires: int)
    requires i < |run|
    ensures var n := |run| - 1;
            Presented(run, i, raw, expires) <==> Presented(run[..n], i, raw, expires) || Presents(run[n], raw, expires)
  {
    var n := |run| - 1;
    if Presented(run[..n], i, raw, expires) {
      var k :| i <= k < n && Presents(run[..n][k], raw, expires);
      assert Presents(run[k], raw, expires);
    }
    if Presented(run, i, raw, expires) {
      var k :| i <= k < |run| && Presents(run[k], raw, expires);
      assert k < n ==> Presents(run[..n][k], raw, expires);
    }
  }

  // ---- an unspent code

  lemma ExchangeKeepsOtherCodes(db: Db, raw: nat, accepted: bool, now: int, h: Digest)
    requires h in db.codes && (h == HashToken(raw) ==> now >= db.codes[h].expires && !db.codes[h].used)
    ensures var d := Exchange(db, raw, accepted, now).0; h in d.codes && d.codes[h] == db.codes[h]
  {
    hide Entries, Column, WithoutTokensOf, WithoutRefreshOf, GrantsBetween;
  }

  lemma CleanKeepsCodeRows(db: Db, c1: bool, c2: bool, c3: bool, c4: bool, now: int, h: Digest)
    requires h in Clean(db, c1, c2, c3, c4, now).codes
    ensures h in db.codes && Clean(db, c1, c2, c3, c4, now).codes[h] == db.codes[h]
  {
    CleanedCodes(db, c1, c2, c3, c4, now);
  }

  lemma UnspentStep(db: Db, e: Event, h: Digest)
    requires h in db.codes && h.of < db.next && !db.codes[h].used && !Presents(e, h.of, db.codes[h].expires)
    requires h in Apply(db, e).codes
    ensures Apply(db, e).codes[h] == db.codes[h]
  {
    hide Exchange, Clean, OAuthTables.RefreshGrant, Evicted, Column;
    match e.op
    case Redeem(code, accepted) => ExchangeKeepsOtherCodes(db, code, accepted, e.now, h);
    case Rotate(refresh, client) => RotationKeepsRows(db, refresh, client, e.now);
    case Sweep(c1, c2, c3, c4) => CleanKeepsCodeRows(db, c1, c2, c3, c4, e.now, h);
    case _ =>
  }

  lemma {:induction false} UnspentStays(db: Db, run: seq<Event>, i: nat, raw: nat)
    requires Inv(db) && i <= |run| && HashToken(raw) in After(db, run[..i]).codes
    requires var c := After(db, run[..i]).codes[HashToken(raw)];
             !c.used && !Presented(run, i, raw, c.expires) &&
             c.client in After(db, run).clients && c.user in After(db, run).users &&
             SweptBefore(run, i, c.expires + SPENT_CODE_RETENTION)
    ensures var h := HashToken(raw); h in After(db, run).codes && After(db, run).codes[h] == After(db, run[..i]).codes[h]
  {
    hide Apply, Inv, Evolves, Presented, Presents, OwnersFrom;
    assert run[..|run|] == run;
    if i < |run| {
      var n, h := |run| - 1, HashToken(raw);
      var prev := After(db, run[..n]);
      var c := After(db, run[..i]).codes[h];
      assert run[..n][..i] == run[..i];
      InvariantOverRuns(db, run[..i]);
      CodeOwners(After(db, run[..i]), h);
      RunEvolves(db, run, i, n);
      NextGrows(After(db, run[..i]), prev);
      OwnersStay(prev, run[n], c.client, c.user);
      PresentedNext(run, i, raw, c.expires);
      UnspentStays(db, run[..n], i, raw);
      InvariantOverRuns(db, run[..n]);
      KeysBelowNext(prev);
      CodeSurvives(prev, run[n], h);
      UnspentStep(prev, run[n], h);
    }
  }

  lemma OwnersStay(db: Db, e: Event, client: Id, user: Id)
    requires client in Apply(db, e).clients && user in Apply(db, e).users && client < db.next && user < db.next
    ensures client in db.clients && user in db.users
  {
    hide Apply;
    OwnersNeverReturn(db, e);
  }

  // ---- a presented one

  predicate Unredeemable(db: Db, h: Digest) {
    h in db.codes ==> db.codes[h].used
  }

  lemma PresentingSpends(db: Db, e: Event, raw: nat, expires: int)
    requires Inv(db) && raw != 0 && Presents(e, raw, expires)
    requires HashToken(raw) in db.codes && !db.codes[HashToken(raw)].used ==> db.codes[HashToken(raw)].expires == expires
    ensures Unredeemable(Apply(db, e), HashToken(raw))
  {
    hide Entries, Column, WithoutTokensOf, WithoutRefreshOf, GrantsBetween, ColumnsNormal;
    assert HashToken(raw) in db.codes ==>
        db.codes[HashToken(raw)].client in db.clients && db.codes[HashToken(raw)].user in db.users;
    hide Linked;
  }

  lemma UnredeemableLasts(a: Db, b: Db, h: Digest)
    requires Evolves(a, b) && Unredeemable(a, h) && h.of < a.next
    ensures Unredeemable(b, h)
  {}

  lemma {:induction false} PresentedIsUnredeemable(db: Db, run: seq<Event>, i: nat, raw: nat)
    requires Inv(db) && i <= |run| && raw != 0 && HashToken(raw) in After(db, run[..i]).codes
    requires Presented(run, i, raw, After(db, run[..i]).codes[HashToken(raw)].expires)
    ensures Unredeemable(After(db, run), HashToken(raw))
  {
    hide Apply, Inv, Evolves, Presented, Presents, Unredeemable;
    var h := HashToken(raw);
    var c := After(db, run[..i]).codes[h];
    assert run[..|run|] == run;
    if i < |run| {
      var n := |run| - 1;
      var prev := After(db, run[..n]);
      assert run[..n][..i] == run[..i];
      InvariantOverRuns(db, run[..i]);
      InvariantOverRuns(db, run[..n]);
      KeysBelowNext(After(db, run[..i]));
      RunEvolves(db, run, i, n);
      NextGrows(After(db, run[..i]), prev);
      PresentedNext(run, i, raw, c.expires);
      if Presented(run[..n], i, raw, c.expires) {
        PresentedIsUnredeemable(db, run[..n], i, raw);
        StepEvolves(prev, run[n]);
        UnredeemableLasts(prev, Apply(prev, run[n]), h);
      } else {
        SameExpiry(After(db, run[..i]), prev, h);
        PresentingSpends(prev, run[n], raw, c.expires);
      }
    } else {
      NeverPresented(run, i, raw, c.expires);
    }
  }

  lemma NeverPresented(run: seq<Event>, i: nat, raw: nat, expires: int)
    requires i == |run|
    ensures !Presented(run, i, raw, expires)
  {}

  lemma SameExpiry(a: Db, b: Db, h: Digest)
    requires Evolves(a, b) && h in a.codes && h.of < a.next
    ensures h in b.codes ==> b.codes[h].expires == a.codes[h].expires
  {}

  // ---- exactly when

  lemma ExchangeAnswers(db: Db, raw: nat, now: int)
    requires Inv(db) && raw != 0
    ensures var h := HashToken(raw);
            Exchange(db, raw, true, now).1.Issued? <==> h in db.codes && !db.codes[h].used && now < db.codes[h].expires
  {
    hide Entries, Column, IssueGrant, Mint, ColumnsNormal;
    ExchangeKeeps(db, raw, true, now);
  }

  lemma CodeHasOwners(db: Db, h: Digest)
    requires Inv(db) && h in db.codes
    ensures db.codes[h].client in db.clients && db.codes[h].user in db.users
  {}

  /** An unspent code can be redeemed, over any run and until it expires, exactly unless someone
      presented it in time, or its user has gone, or its client has, evicted, pruned or otherwise. */
  lemma RedeemableExactlyWhen(db: Db, run: seq<Event>, i: nat, raw: nat, now: int)
    requires Inv(db) && i <= |run| && raw != 0 && HashToken(raw) in After(db, run[..i]).codes
    requires var c := After(db, run[..i]).codes[HashToken(raw)];
             !c.used && now < c.expires && SweptBefore(run, i, c.expires + SPENT_CODE_RETENTION)
    ensures var c := After(db, run[..i]).codes[HashToken(raw)];
            Answer(After(db, run), Event(Redeem(raw, true), now)).Issued? <==>
            !Presented(run, i, raw, c.expires) && c.client in After(db, run).clients && c.user in After(db, run).users
  {
    hide Apply, Inv, Evolves, Presented, Exchange;
    var h, end := HashToken(raw), After(db, run);
    var c := After(db, run[..i]).codes[h];
    assert run[..|run|] == run;
    InvariantOverRuns(db, run);
    InvariantOverRuns(db, run[..i]);
    KeysBelowNext(After(db, run[..i]));
    ExchangeAnswers(end, raw, now);
    if Presented(run, i, raw, c.expires) {
      PresentedIsUnredeemable(db, run, i, raw);
    } else if c.client in end.clients && c.user in end.users {
      UnspentStays(db, run, i, raw);
    } else if h in end.codes {
      CodeHasOwners(end, h);
      RunEvolves(db, run, i, |run|);
      SameOwners(After(db, run[..i]), end, h);
    }
  }

  lemma SameOwners(a: Db, b: Db, h: Digest)
    requires Evolves(a, b) && h in a.codes && h in b.codes && h.of < a.next
    ensures b.codes[h].client == a.codes[h].client && b.codes[h].user == a.codes[h].user
  {}

  // ---- pruning

  lemma CleanCode(db: Db, c1: bool, c2: bool, c3: bool, c4: bool, s: int, h: Digest)
    requires h in db.codes && s < db.codes[h].expires + SPENT_CODE_RETENTION
    ensures var d := Clean(db, c1, c2, c3, c4, s);
            (h in d.codes <==> !(c4 && db.codes[h].client in StaleClients(db, s))) &&
            (h in d.codes ==> d.codes[h] == db.codes[h])
  {
    hide WithoutRefreshOf, LiveRefresh, GrantsOfClients, StaleClients;
    var d1 := Either(c1, CleanCodes(db, s), db);
    var d2 := Either(c2, CleanRefresh(d1, s), d1);
    var d3 := Either(c3, CleanTokens(d2, s), d2);
    SameStaleClients(db, d3, s);
  }

  lemma SameStaleClients(a: Db, b: Db, s: int)
    requires a.clients == b.clients && a.grants == b.grants
    ensures StaleClients(a, s) == StaleClients(b, s)
  {
    assert Ungranted(a) == Ungranted(b);
  }

  /** A clean-up can be noticed by whoever holds a code that could still be presented exactly when it
      prunes the code's client. */
  lemma CleanIsNoticedByCodesExactlyWhen(db: Db, c1: bool, c2: bool, c3: bool, c4: bool, s: int, raw: nat, now: int)
    requires Inv(db) && raw != 0 && HashToken(raw) in db.codes
    requires s < db.codes[HashToken(raw)].expires + SPENT_CODE_RETENTION
    requires db.codes[HashToken(raw)].used || now < db.codes[HashToken(raw)].expires
    ensures var before, after := Exchange(db, raw, true, now).1, Exchange(Clean(db, c1, c2, c3, c4, s), raw, true, now).1;
            (before.Issued? || before.Reused?) &&
            (if c4 && db.codes[HashToken(raw)].client in StaleClients(db, s) then after.NotFound?
             else after.Issued? == before.Issued? && after.Reused? == before.Reused?)
  {
    var d := Clean(db, c1, c2, c3, c4, s);
    CleanCode(db, c1, c2, c3, c4, s, HashToken(raw));
    CleanKeeps(db, c1, c2, c3, c4, s);
    ExchangeAnswers(db, raw, now);
    ExchangeAnswers(d, raw, now);
    hide Clean, Inv, IssueGrant, Mint, RevokeGrants, StaleClients;
  }

  /** So an approval seconds old can go with its client: a client registered more than an hour ago and
      never granted anything is pruned by the next clean-up, code and all. */
  lemma PruningTakesAFreshCode(db: Db, consent: AuthCode, now: int)
    requires Inv(db) && consent.user in db.users && consent.client in StaleClients(db, now)
    ensures var approved := Apply(db, Event(Approve(consent), now));
            Answer(approved, Event(Redeem(db.next, true), now)).Issued? &&
            Answer(Apply(approved, Event(Sweep(true, true, true, true), now)), Event(Redeem(db.next, true), now)).NotFound?
  {
    hide Clean, Exchange, StaleClients, Inv, CreateCode;
    var approved := CreateCode(db, consent, now);
    NextIsPositive(db);
    CreateCodeKeeps(db, consent, now);
    ApprovedCode(db, consent, now);
    CleanIsNoticedByCodesExactlyWhen(approved, true, true, true, true, now, db.next, now);
    ExchangeAnswers(approved, db.next, now);
  }

  lemma ApprovedCode(db: Db, consent: AuthCode, now: int)
    requires consent.user in db.users && consent.client in StaleClients(db, now)
    ensures var d, h := CreateCode(db, consent, now), HashToken(db.next);
            h in d.codes && !d.codes[h].used && d.codes[h].client == consent.client && d.codes[h].expires == now + AUTH_CODE_TTL &&
            StaleClients(d, now) == StaleClients(db, now)
  {
    hide Column;
  }
}
