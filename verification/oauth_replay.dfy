/** Replays stay recognisable: a spent code or refresh token is kept for as long as it could be
    presented again, through every clean-up, removal and rotation. */
module OAuthReplay {
  import opened Scopes
  import opened OAuthTables
  import opened OAuthInvariant
  import opened OAuthRuns
  import opened OAuthHistory

  // ---- spent codes

  predicate OwnersFrom(a: Db, b: Db) {
    (forall c :: c in b.clients && c < a.next ==> c in a.clients) && (forall u :: u in b.users && u < a.next ==> u in a.users)
  }

  lemma ExchangeKeepsRows(db: Db, raw: nat, accepted: bool, now: int)
    ensures var d := Exchange(db, raw, accepted, now).0;
            d.clients == db.clients && d.users == db.users && db.codes.Keys <= d.codes.Keys
  {
    hide Entries, Column, WithoutTokensOf, WithoutRefreshOf, GrantsBetween;
  }

  lemma RotationKeepsRows(db: Db, raw: nat, client: Id, now: int)
    ensures var d := RefreshGrant(db, raw, client, now).0; d.clients == db.clients && d.users == db.users && d.codes == db.codes
  {
    hide Entries, Column, WithoutTokensOf, WithoutRefreshOf;
  }

  lemma RemovalsKeepRows(db: Db, user: Id, id: Id, cs: set<Id>)
    ensures OwnersFrom(db, DeleteUser(db, user)) && OwnersFrom(db, RemoveClients(db, cs))
    ensures forall h :: h in db.codes && db.codes[h].user in DeleteUser(db, user).users ==> h in DeleteUser(db, user).codes
    ensures forall h :: h in db.codes && db.codes[h].client in RemoveClients(db, cs).clients ==> h in RemoveClients(db, cs).codes
    ensures var d := RevokeOAuthGrant(db, user, id); d.clients == db.clients && d.users == db.users && d.codes == db.codes
  {
    hide WithoutTokensOf, WithoutRefreshOf, GrantsOfUser, GrantsOfClients;
  }

  lemma CleanKeepsRows(db: Db, c1: bool, c2: bool, c3: bool, c4: bool, now: int)
    ensures OwnersFrom(db, Clean(db, c1, c2, c3, c4, now))
    ensures var d := Clean(db, c1, c2, c3, c4, now);
            forall h :: h in db.codes && now < db.codes[h].expires + SPENT_CODE_RETENTION && db.codes[h].client in d.clients ==> h in d.codes
  {
    hide StaleClients, WithoutRefreshOf, GrantsOfClients, LiveRefresh;
  }

  /** No operation brings back a client or an account that is gone. */
  lemma OwnersNeverReturn(db: Db, e: Event)
    ensures OwnersFrom(db, Apply(db, e))
  {
    hide Exchange, OAuthTables.RefreshGrant, RemoveClients, DeleteUser, RevokeOAuthGrant, Clean, Evicted;
    match e.op
    case RemoveAccount(user) => RemovalsKeepRows(db, user, 0, {});
    case Evict(max) => RemovalsKeepRows(db, 0, 0, Evicted(db, max));
    case Disconnect(user, grant) => RemovalsKeepRows(db, user, grant, {});
    case Redeem(code, accepted) => ExchangeKeepsRows(db, code, accepted, e.now);
    case Rotate(refresh, client) => RotationKeepsRows(db, refresh, client, e.now);
    case Sweep(c1, c2, c3, c4) => CleanKeepsRows(db, c1, c2, c3, c4, e.now);
    case _ =>
  }

  lemma CodeSurvives(db: Db, e: Event, h: Digest)
    requires h in db.codes && (e.op.Sweep? ==> e.now < db.codes[h].expires + SPENT_CODE_RETENTION)
    requires db.codes[h].client in Apply(db, e).clients && db.codes[h].user in Apply(db, e).users
    ensures h in Apply(db, e).codes
  {
    hide Exchange, OAuthTables.RefreshGrant, RemoveClients, DeleteUser, RevokeOAuthGrant, Clean, Evicted, Column, OwnersFrom;
    match e.op
    case RemoveAccount(user) => RemovalsKeepRows(db, user, 0, {});
    case Evict(max) => RemovalsKeepRows(db, 0, 0, Evicted(db, max));
    case Disconnect(user, grant) => RemovalsKeepRows(db, user, grant, {});
    case Redeem(code, accepted) => ExchangeKeepsRows(db, code, accepted, e.now);
    case Rotate(refresh, client) => RotationKeepsRows(db, refresh, client, e.now);
    case Sweep(c1, c2, c3, c4) => CleanKeepsRows(db, c1, c2, c3, c4, e.now);
    case _ =>
  }

  /** No clean-up ran that late. */
  predicate SweptBefore(run: seq<Event>, from: nat, time: int) {
    forall k :: from <= k < |run| && run[k].op.Sweep? ==> run[k].now < time
  }

  lemma {:induction false} SpentCodeStays(db: Db, run: seq<Event>, i: nat, h: Digest)
    requires Inv(db) && i <= |run| && h in After(db, run[..i]).codes && After(db, run[..i]).codes[h].used
    requires var c := After(db, run[..i]).codes[h];
             c.client in After(db, run).clients && c.user in After(db, run).users &&
             SweptBefore(run, i, c.expires + SPENT_CODE_RETENTION)
    ensures h in After(db, run).codes && After(db, run).codes[h] == After(db, run[..i]).codes[h]
  {
    hide Apply, Inv, Evolves;
    assert run[..|run|] == run;
    if i < |run| {
      var n := |run| - 1;
      var prev := After(db, run[..n]);
      var c := After(db, run[..i]).codes[h];
      assert run[..n][..i] == run[..i];
      InvariantOverRuns(db, run[..i]);
      CodeOwners(After(db, run[..i]), h);
      RunEvolves(db, run, i, n);
      NextGrows(After(db, run[..i]), prev);
      OwnersNeverReturn(prev, run[n]);
      SpentCodeStays(db, run[..n], i, h);
      CodeSurvives(prev, run[n], h);
      InvariantOverRuns(db, run[..n]);
      KeysBelowNext(prev);
      StepEvolves(prev, run[n]);
      SpentCodeIsKept(prev, Apply(prev, run[n]), h);
    }
  }

  lemma NextGrows(a: Db, b: Db)
    requires Evolves(a, b)
    ensures a.next <= b.next
  {}

  lemma SpentCodeIsKept(a: Db, b: Db, h: Digest)
    requires Evolves(a, b) && h in a.codes && h in b.codes && h.of < a.next && a.codes[h].used
    ensures a.codes[h] == b.codes[h]
  {}

  lemma CodeOwners(db: Db, h: Digest)
    requires Inv(db) && h in db.codes
    ensures db.codes[h].client < db.next && db.codes[h].user < db.next
  {}

  /** A spent code presented again is answered as a replay at any later point of any run, until its
      client or its user is gone or a clean-up has run a day past its expiry. */
  lemma SpentCodeIsRecognised(db: Db, run: seq<Event>, i: nat, raw: nat, accepted: bool, now: int)
    requires Inv(db) && i <= |run| && raw != 0
    requires HashToken(raw) in After(db, run[..i]).codes && After(db, run[..i]).codes[HashToken(raw)].used
    requires var c := After(db, run[..i]).codes[HashToken(raw)];
             c.client in After(db, run).clients && c.user in After(db, run).users &&
             SweptBefore(run, i, c.expires + SPENT_CODE_RETENTION)
    ensures Answer(After(db, run), Event(Redeem(raw, accepted), now)).Reused?
  {
    hide Apply, Inv, After;
    SpentCodeStays(db, run, i, HashToken(raw));
  }

  // ---- spent refresh tokens

  /** While its grant is there, a refresh token is. */
  predicate RefreshFollowsGrant(a: Db, b: Db) {
    forall h :: h in a.refresh && h.of < a.next && a.refresh[h].grant < a.next && a.refresh[h].grant in b.grants ==> h in b.refresh
  }

  lemma IssuingKeepsRefresh(db: Db, raw: nat, accepted: bool, now: int)
    ensures RefreshFollowsGrant(db, Exchange(db, raw, accepted, now).0)
  {
    hide Entries, Column, WithoutTokensOf;
  }

  lemma RotatingKeepsRefresh(db: Db, raw: nat, client: Id, now: int)
    ensures RefreshFollowsGrant(db, RefreshGrant(db, raw, client, now).0)
  {
    hide Entries, Column, WithoutTokensOf;
  }

  lemma RemovalsKeepRefresh(db: Db, user: Id, id: Id, cs: set<Id>)
    ensures RefreshFollowsGrant(db, DeleteUser(db, user)) && RefreshFollowsGrant(db, RemoveClients(db, cs))
    ensures RefreshFollowsGrant(db, RevokeOAuthGrant(db, user, id))
  {
    hide WithoutTokensOf;
  }

  lemma CleanKeepsRefresh(db: Db, c1: bool, c2: bool, c3: bool, c4: bool, now: int)
    ensures var d := Clean(db, c1, c2, c3, c4, now);
            forall h :: h in db.refresh && now < db.refresh[h].expires && db.refresh[h].grant in d.grants ==> h in d.refresh
  {
    hide StaleClients;
  }

  lemma RefreshSurvives(db: Db, e: Event, h: Digest)
    requires h in db.refresh && h.of < db.next && (e.op.Sweep? ==> e.now < db.refresh[h].expires)
    requires db.refresh[h].grant in Apply(db, e).grants && db.refresh[h].grant < db.next
    ensures h in Apply(db, e).refresh
  {
    hide Exchange, OAuthTables.RefreshGrant, RemoveClients, DeleteUser, RevokeOAuthGrant, Clean, Evicted, Column;
    match e.op
    case RemoveAccount(user) => RemovalsKeepRefresh(db, user, 0, {});
    case Evict(max) => RemovalsKeepRefresh(db, 0, 0, Evicted(db, max));
    case Disconnect(user, grant) => RemovalsKeepRefresh(db, user, grant, {});
    case Redeem(code, accepted) => IssuingKeepsRefresh(db, code, accepted, e.now);
    case Rotate(refresh, client) => RotatingKeepsRefresh(db, refresh, client, e.now);
    case Sweep(c1, c2, c3, c4) => CleanKeepsRefresh(db, c1, c2, c3, c4, e.now);
    case _ =>
  }

  lemma RefreshBelowNext(db: Db, h: Digest)
    requires Inv(db) && h in db.refresh
    ensures h.of < db.next && db.refresh[h].grant in db.grants && db.refresh[h].grant < db.next
  {}

  lemma SpentRefreshIsKept(a: Db, b: Db, h: Digest)
    requires Evolves(a, b) && h in a.refresh && h in b.refresh && h.of < a.next && a.refresh[h].used
    ensures b.refresh[h] == a.refresh[h]
  {}

  lemma OldGrantWasThere(a: Db, b: Db, g: Id)
    requires Evolves(a, b) && g in b.grants && g < a.next
    ensures g in a.grants && a.grants[g] == b.grants[g]
  {}

  lemma {:induction false} SpentRefreshStays(db: Db, run: seq<Event>, i: nat, h: Digest)
    requires Inv(db) && i <= |run| && h in After(db, run[..i]).refresh && After(db, run[..i]).refresh[h].used
    requires var r := After(db, run[..i]).refresh[h];
             r.grant in After(db, run).grants && SweptBefore(run, i, r.expires)
    ensures h in After(db, run).refresh && After(db, run).refresh[h] == After(db, run[..i]).refresh[h]
  {
    hide Apply, Inv, Evolves;
    assert run[..|run|] == run;
    if i < |run| {
      var n := |run| - 1;
      var prev, r := After(db, run[..n]), After(db, run[..i]).refresh[h];
      assert run[..n][..i] == run[..i];
      InvariantOverRuns(db, run[..i]);
      RefreshBelowNext(After(db, run[..i]), h);
      RunEvolves(db, run, i, n);
      NextGrows(After(db, run[..i]), prev);
      StepEvolves(prev, run[n]);
      OldGrantWasThere(prev, Apply(prev, run[n]), r.grant);
      SpentRefreshStays(db, run[..n], i, h);
      RefreshSurvives(prev, run[n], h);
      SpentRefreshIsKept(prev, Apply(prev, run[n]), h);
    }
  }

  /** And a spent refresh token presented by its own client is answered as a replay until it expires,
      as long as its grant is there: whoever holds a stolen one kills the grant by using it. */
  lemma SpentRefreshIsRecognised(db: Db, run: seq<Event>, i: nat, raw: nat, now: int)
    requires Inv(db) && i <= |run| && raw != 0
    requires HashToken(raw) in After(db, run[..i]).refresh && After(db, run[..i]).refresh[HashToken(raw)].used
    requires var r := After(db, run[..i]).refresh[HashToken(raw)];
             r.grant in After(db, run).grants && SweptBefore(run, i, r.expires) && now < r.expires
    ensures var g := After(db, run[..i]).refresh[HashToken(raw)].grant;
            Answer(After(db, run), Event(Rotate(raw, After(db, run).grants[g].client), now)).Reused?
  {
    hide Apply, Inv, After;
    SpentRefreshStays(db, run, i, HashToken(raw));
  }
}
