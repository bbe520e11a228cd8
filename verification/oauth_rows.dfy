/** Row by row: exactly which step ends a grant, a refresh token, a code, a client or an account, what a
    removed account takes with it, and what a token made by hand is good for. */
module OAuthRows {
  import opened Basics
  import opened Scopes
  import opened OAuthTables
  import opened OAuthInvariant
  import opened OAuthRuns
  import opened OAuthHistory
  import opened OAuthReplay
  import opened OAuthHousekeeping

  // ---- grants

  /** An account is removed unless it is the last one. */
  predicate Removes(db: Db, op: Op, user: Id) {
    op == RemoveAccount(user) && |db.users| > 1
  }

  predicate EndsGrant(db: Db, e: Event, g: Id)
    requires g in db.grants
  {
    var row := db.grants[g];
    match e.op
    case RemoveAccount(user) => user == row.user && |db.users| > 1
    case Disconnect(user, grant) => grant == g && user == row.user
    case Redeem(code, _) =>
      HashToken(code) in db.codes &&
      var c := db.codes[HashToken(code)];
      (Answer(db, e).Reused? && c.grant == g) || (Answer(db, e).Issued? && c.client == row.client && c.user == row.user)
    case Rotate(refresh, _) => Answer(db, e).Reused? && HashToken(refresh) in db.refresh && db.refresh[HashToken(refresh)].grant == g
    case _ => false
  }

  lemma MintKeepsGrants(db: Db, g: Id, now: int)
    requires CanMint(db, g)
    ensures Mint(db, g, now).0.grants == db.grants
  {}

  lemma RedeemGrants(db: Db, raw: nat, accepted: bool, now: int, g: Id)
    requires 0 < g < db.next && Exchange(db, raw, accepted, now).1.Issued?
    ensures var c := db.codes[HashToken(raw)];
            g in Exchange(db, raw, accepted, now).0.grants <==>
            g in db.grants && !(db.grants[g].client == c.client && db.grants[g].user == c.user)
  {
    hide Mint, WithoutTokensOf, WithoutRefreshOf, Entries, Column;
    var c := HashToken(raw);
    MintKeepsGrants(IssueGrant(Spend(db, c), c, now), db.next, now);
  }

  lemma RotateGrants(db: Db, raw: nat, client: Id, now: int)
    requires RefreshGrant(db, raw, client, now).1.Issued?
    ensures RefreshGrant(db, raw, client, now).0.grants == db.grants
  {
    hide Mint;
    MintKeepsGrants(SpendRefresh(db, HashToken(raw)), db.refresh[HashToken(raw)].grant, now);
  }

  lemma RefusalKeepsGrants(db: Db, e: Event)
    requires (e.op.Redeem? || e.op.Rotate?) && !Answer(db, e).Issued? && !Answer(db, e).Reused?
    ensures Apply(db, e).grants == db.grants && Apply(db, e).refresh == db.refresh
  {}

  lemma SweepKeepsGrants(db: Db, c1: bool, c2: bool, c3: bool, c4: bool, now: int)
    requires Linked(db)
    ensures Clean(db, c1, c2, c3, c4, now).grants == db.grants
  {
    hide Linked, Clean, TokensAlike, RefreshAlike;
    CleanIsAlike(db, c1, c2, c3, c4, now);
  }

  /** A grant ends in a step exactly when its account is removed, its owner disconnects it, its code or
      one of its refresh tokens is replayed, or the same client and user are granted anew. */
  lemma GrantEndsExactlyWhen(db: Db, e: Event, g: Id)
    requires Inv(db) && g in db.grants
    ensures g !in Apply(db, e).grants <==> EndsGrant(db, e, g)
  {
    hide Linked, ColumnsNormal, Clean, Exchange, RefreshGrant, MakeRoom, DeleteUser, OAuthTables.RevokeOAuthGrant, CreateCode, Answer,
         CreateToken, DeleteToken, CreateUser, CreateClient;
    match e.op
    case RemoveAccount(user) => RemovedAccountIsGone(db, user); GrantOwner(db, g);
    case Sweep(c1, c2, c3, c4) => SweepKeepsGrants(db, c1, c2, c3, c4, e.now);
    case Evict(max) => EvictionKeepsGrants(db, max);
    case Approve(consent) => ApprovingKeeps(db, consent, e.now);
    case Disconnect(user, grant) => RevokedGrants(db, user, grant, g);
    case Redeem(_, _) => PresentingEndsGrant(db, e, g);
    case Rotate(_, _) => PresentingEndsGrant(db, e, g);
    case _ => UnrelatedKeepsGrants(db, e);
  }

  lemma GrantOwner(db: Db, g: Id)
    requires Inv(db) && g in db.grants
    ensures db.grants[g].user in db.users && |db.users| > 0
  {
    assert db.users != {};
  }

  lemma RevokedGrants(db: Db, user: Id, grant: Id, g: Id)
    requires g in db.grants
    ensures g in OAuthTables.RevokeOAuthGrant(db, user, grant).grants <==> !(grant == g && user == db.grants[g].user)
  {}

  lemma UnrelatedKeepsGrants(db: Db, e: Event)
    requires e.op.AddUser? || e.op.Register? || e.op.MintByHand? || e.op.RevokeByHand?
    ensures Apply(db, e).grants == db.grants && Apply(db, e).refresh == db.refresh
  {
    hide Column;
  }

  lemma PresentingEndsGrant(db: Db, e: Event, g: Id)
    requires Inv(db) && g in db.grants && (e.op.Redeem? || e.op.Rotate?)
    ensures g !in Apply(db, e).grants <==> EndsGrant(db, e, g)
  {
    hide Apply, Answer, EndsGrant, Inv;
    match Answer(db, e)
    case Reused => ReplayEndsGrant(db, e, g);
    case Issued(_) =>
      if e.op.Redeem? { RedeemingEndsGrant(db, e, g); } else { RotatingEndsNoGrant(db, e, g); }
    case _ => RefusalEndsNoGrant(db, e, g);
  }

  lemma ReplayEndsGrant(db: Db, e: Event, g: Id)
    requires Inv(db) && g in db.grants && (e.op.Redeem? || e.op.Rotate?) && Answer(db, e).Reused?
    ensures g !in Apply(db, e).grants <==> EndsGrant(db, e, g)
  {
    hide Inv, WithoutTokensOf, WithoutRefreshOf, Apply, Answer;
    KeysBelowNext(db);
    ReplayIsRevocation(db, e);
    ReusedWasThere(db, e);
  }

  lemma RotatingEndsNoGrant(db: Db, e: Event, g: Id)
    requires g in db.grants && e.op.Rotate? && Answer(db, e).Issued?
    ensures g !in Apply(db, e).grants <==> EndsGrant(db, e, g)
  {
    hide RefreshGrant;
    RotateGrants(db, e.op.refresh, e.op.client, e.now);
  }

  lemma RedeemingEndsGrant(db: Db, e: Event, g: Id)
    requires Inv(db) && g in db.grants && e.op.Redeem? && Answer(db, e).Issued?
    ensures g !in Apply(db, e).grants <==> EndsGrant(db, e, g)
  {
    hide Inv, Exchange;
    KeysBelowNext(db);
    RedeemGrants(db, e.op.code, e.op.accepted, e.now, g);
    IssuingSpends(db, e.op.code, e.op.accepted, e.now);
  }

  lemma RefusalEndsNoGrant(db: Db, e: Event, g: Id)
    requires g in db.grants && (e.op.Redeem? || e.op.Rotate?) && !Answer(db, e).Issued? && !Answer(db, e).Reused?
    ensures g !in Apply(db, e).grants <==> EndsGrant(db, e, g)
  {
    hide Apply, Answer;
    RefusalKeepsGrants(db, e);
  }

  lemma ReusedWasThere(db: Db, e: Event)
    requires (e.op.Redeem? || e.op.Rotate?) && Answer(db, e).Reused?
    ensures e.op.Redeem? ==> HashToken(e.op.code) in db.codes
    ensures e.op.Rotate? ==> HashToken(e.op.refresh) in db.refresh
  {}

  lemma EvictionKeepsGrants(db: Db, max: int)
    requires Linked(db)
    ensures MakeRoom(db, max).grants == db.grants && MakeRoom(db, max).refresh == db.refresh
  {
    assert Evicted(db, max) <= Ungranted(db);
    hide Linked, Evicted, RemoveClients;
    RemoveClientsLinked(db, Evicted(db, max));
  }

  // ---- clients and accounts

  lemma StepClients(db: Db, e: Event)
    requires !e.op.Register?
    ensures Apply(db, e).clients ==
            match e.op
            case Evict(max) => db.clients - Evicted(db, max)
            case Sweep(c1, c2, c3, c4) => Clean(db, c1, c2, c3, c4, e.now).clients
            case _ => db.clients
  {
    hide Clean, Exchange, OAuthTables.RefreshGrant, Evicted, WithoutTokensOf, WithoutRefreshOf, Column;
    match e.op
    case Redeem(code, accepted) => ExchangeKeepsRows(db, code, accepted, e.now);
    case Rotate(refresh, client) => RotationKeepsRows(db, refresh, client, e.now);
    case _ =>
  }

  lemma SweepClients(db: Db, c1: bool, c2: bool, c3: bool, c4: bool, now: int, c: Id)
    requires c in db.clients
    ensures c !in Clean(db, c1, c2, c3, c4, now).clients <==>
            c4 && db.clients[c].createdAt < now - 3600 && forall g :: g in db.grants ==> db.grants[g].client != c
  {
    hide WithoutRefreshOf, LiveRefresh, GrantsOfClients;
  }

  /** A client ends exactly when it has no grant and is either pruned, an hour after it registered, or
      evicted with max - 1 or more ungranted clients that registered after it. */
  lemma ClientEndsExactlyWhen(db: Db, e: Event, c: Id)
    requires Inv(db) && c in db.clients
    ensures c !in Apply(db, e).clients <==>
            (forall g :: g in db.grants ==> db.grants[g].client != c) &&
            ((e.op.Sweep? && e.op.c4 && db.clients[c].createdAt < e.now - 3600) ||
             (e.op.Evict? && |Ahead(Ungranted(db), db.clients, c)| >= e.op.max - 1))
    ensures c in Apply(db, e).clients ==> Apply(db, e).clients[c] == db.clients[c]
  {
    hide Linked, ColumnsNormal, Clean;
    match e.op
    case Sweep(c1, c2, c3, c4) =>
      SweepClients(db, c1, c2, c3, c4, e.now, c);
      CleanedRows(db, c1, c2, c3, c4, e.now);
    case Evict(max) =>
      StepClients(db, e);
      assert c in Ungranted(db) ==> NewerUngranted(db, c) == Ahead(Ungranted(db), db.clients, c);
    case Register(_) => assert c < db.next by { ClientsBelowNext(db); }
    case _ => StepClients(db, e);
  }

  lemma ClientsBelowNext(db: Db)
    requires Inv(db)
    ensures (forall c :: c in db.clients ==> c < db.next) && forall u :: u in db.users ==> u < db.next
  {}

  lemma UserEndsExactlyWhen(db: Db, e: Event, user: Id)
    requires Inv(db) && user in db.users
    ensures user !in Apply(db, e).users <==> Removes(db, e.op, user)
  {
    hide Linked, ColumnsNormal, Clean, Exchange, OAuthTables.RefreshGrant, Evicted, WithoutTokensOf, WithoutRefreshOf, Column;
    match e.op
    case Redeem(code, accepted) => ExchangeKeepsRows(db, code, accepted, e.now);
    case Rotate(refresh, client) => RotationKeepsRows(db, refresh, client, e.now);
    case Sweep(c1, c2, c3, c4) => CleanedRows(db, c1, c2, c3, c4, e.now);
    case _ =>
  }

  /** Removing an account, unless it is the last one or not there, takes it and every row of its: and
      then nobody else's. */
  lemma RemovedAccountIsGone(db: Db, user: Id)
    requires Inv(db)
    ensures var d := DeleteUser(db, user);
            if user !in db.users || |db.users| == 1 then d == db
            else
              d.users == db.users - {user} && d.clients == db.clients &&
              (forall h :: h in d.codes <==> h in db.codes && db.codes[h].user != user) &&
              (forall g :: g in d.grants <==> g in db.grants && db.grants[g].user != user) &&
              (forall h :: h in d.tokens <==> h in db.tokens && db.tokens[h].user != user) &&
              (forall h :: h in d.refresh <==> h in db.refresh && db.grants[db.refresh[h].grant].user != user)
  {
    assert |db.users| == 0 ==> db.users == {};
  }

  // ---- refresh tokens and codes

  lemma RedeemRefresh(db: Db, raw: nat, accepted: bool, now: int, h: Digest)
    requires h.of < db.next && Exchange(db, raw, accepted, now).1.Issued?
    ensures var c := db.codes[HashToken(raw)];
            h in Exchange(db, raw, accepted, now).0.refresh <==>
            h in db.refresh && db.refresh[h].grant !in GrantsBetween(db, c.client, c.user)
  {
    hide WithoutTokensOf, Entries, Column;
  }

  lemma RotateRefresh(db: Db, raw: nat, client: Id, now: int, h: Digest)
    requires h.of < db.next && RefreshGrant(db, raw, client, now).1.Issued? && h in db.refresh
    ensures var d := RefreshGrant(db, raw, client, now).0;
            h in d.refresh && d.refresh[h] == db.refresh[h].(used := db.refresh[h].used || h == HashToken(raw))
  {
    hide Entries, Column;
  }

  predicate EndsRefresh(db: Db, e: Event, h: Digest)
    requires h in db.refresh && db.refresh[h].grant in db.grants
  {
    EndsGrant(db, e, db.refresh[h].grant) || (e.op.Sweep? && e.op.c2 && db.refresh[h].expires <= e.now)
  }

  /** A refresh token ends exactly with its grant, or by a clean-up once it has expired. */
  lemma RefreshEndsExactlyWhen(db: Db, e: Event, h: Digest)
    requires Inv(db) && h in db.refresh
    ensures db.refresh[h].grant in db.grants
    ensures h !in Apply(db, e).refresh <==> EndsRefresh(db, e, h)
  {
    hide Inv, Apply, EndsRefresh;
    RefreshFacts(db, h);
    match e.op
    case RemoveAccount(_) => RemovalEndsRefresh(db, e, h);
    case Disconnect(_, _) => DisconnectingEndsRefresh(db, e, h);
    case Redeem(_, _) => PresentingEndsRefresh(db, e, h);
    case Rotate(_, _) => PresentingEndsRefresh(db, e, h);
    case Sweep(_, _, _, _) => SweepEndsRefresh(db, e, h);
    case Evict(_) => SweepEndsRefresh(db, e, h);
    case _ => OtherStepsEndNoRefresh(db, e, h);
  }

  lemma RemovalEndsRefresh(db: Db, e: Event, h: Digest)
    requires Inv(db) && h in db.refresh && db.refresh[h].grant in db.grants && e.op.RemoveAccount?
    ensures h !in Apply(db, e).refresh <==> EndsRefresh(db, e, h)
  {
    hide Inv, DeleteUser;
    GrantOwner(db, db.refresh[h].grant);
    RemovedAccountIsGone(db, e.op.user);
  }

  lemma DisconnectingEndsRefresh(db: Db, e: Event, h: Digest)
    requires h in db.refresh && db.refresh[h].grant in db.grants && e.op.Disconnect?
    ensures h !in Apply(db, e).refresh <==> EndsRefresh(db, e, h)
  {
    hide OAuthTables.RevokeOAuthGrant;
    RevokedOAuthGrant(db, e.op.user, e.op.grant, h);
  }

  lemma SweepEndsRefresh(db: Db, e: Event, h: Digest)
    requires Inv(db) && h in db.refresh && db.refresh[h].grant in db.grants && (e.op.Sweep? || e.op.Evict?)
    ensures h !in Apply(db, e).refresh <==> EndsRefresh(db, e, h)
  {
    hide Linked, ColumnsNormal, Clean, MakeRoom;
    match e.op
    case Sweep(c1, c2, c3, c4) => CleanedRefresh(db, c1, c2, c3, c4, e.now);
    case Evict(max) => EvictionKeepsGrants(db, max);
    case _ =>
  }

  lemma OtherStepsEndNoRefresh(db: Db, e: Event, h: Digest)
    requires h in db.refresh && db.refresh[h].grant in db.grants
    requires e.op.AddUser? || e.op.Register? || e.op.Approve? || e.op.MintByHand? || e.op.RevokeByHand?
    ensures h !in Apply(db, e).refresh <==> EndsRefresh(db, e, h)
  {
    if e.op.Approve? { ApprovingKeeps(db, e.op.consent, e.now); } else { UnrelatedKeepsGrants(db, e); }
    hide CreateCode, CreateToken, DeleteToken, CreateUser, CreateClient;
  }

  lemma PresentingEndsRefresh(db: Db, e: Event, h: Digest)
    requires Inv(db) && h in db.refresh && db.refresh[h].grant in db.grants && (e.op.Redeem? || e.op.Rotate?)
    ensures h !in Apply(db, e).refresh <==> EndsRefresh(db, e, h)
  {
    hide Apply, Answer, EndsRefresh, Inv;
    match Answer(db, e)
    case Reused => ReplayEndsRefresh(db, e, h);
    case Issued(_) =>
      if e.op.Redeem? { RedeemingEndsRefresh(db, e, h); } else { RotatingEndsNoRefresh(db, e, h); }
    case _ => RefusalEndsNoRefresh(db, e, h);
  }

  lemma ReplayEndsRefresh(db: Db, e: Event, h: Digest)
    requires Inv(db) && h in db.refresh && db.refresh[h].grant in db.grants && (e.op.Redeem? || e.op.Rotate?) && Answer(db, e).Reused?
    ensures h !in Apply(db, e).refresh <==> EndsRefresh(db, e, h)
  {
    hide Inv, WithoutTokensOf, Apply, Answer;
    RefreshFacts(db, h);
    ReplayIsRevocation(db, e);
    ReusedWasThere(db, e);
  }

  lemma RotatingEndsNoRefresh(db: Db, e: Event, h: Digest)
    requires Inv(db) && h in db.refresh && db.refresh[h].grant in db.grants && e.op.Rotate? && Answer(db, e).Issued?
    ensures h !in Apply(db, e).refresh <==> EndsRefresh(db, e, h)
  {
    hide Inv, RefreshGrant;
    RefreshFacts(db, h);
    RotateRefresh(db, e.op.refresh, e.op.client, e.now, h);
  }

  lemma RedeemingEndsRefresh(db: Db, e: Event, h: Digest)
    requires Inv(db) && h in db.refresh && db.refresh[h].grant in db.grants && e.op.Redeem? && Answer(db, e).Issued?
    ensures h !in Apply(db, e).refresh <==> EndsRefresh(db, e, h)
  {
    hide Inv, Exchange;
    RefreshFacts(db, h);
    RedeemRefresh(db, e.op.code, e.op.accepted, e.now, h);
    IssuingSpends(db, e.op.code, e.op.accepted, e.now);
  }

  lemma RefusalEndsNoRefresh(db: Db, e: Event, h: Digest)
    requires h in db.refresh && db.refresh[h].grant in db.grants
    requires (e.op.Redeem? || e.op.Rotate?) && !Answer(db, e).Issued? && !Answer(db, e).Reused?
    ensures h !in Apply(db, e).refresh <==> EndsRefresh(db, e, h)
  {
    hide Apply, Answer;
    RefusalKeepsGrants(db, e);
  }

  lemma ApprovingKeeps(db: Db, consent: AuthCode, now: int)
    ensures CreateCode(db, consent, now).refresh == db.refresh && CreateCode(db, consent, now).grants == db.grants
  {}

  lemma RevokedOAuthGrant(db: Db, user: Id, g: Id, h: Digest)
    requires h in db.refresh && db.refresh[h].grant in db.grants
    ensures h in OAuthTables.RevokeOAuthGrant(db, user, g).refresh <==>
            !(db.refresh[h].grant == g && db.grants[g].user == user)
  {}

  lemma RefreshFacts(db: Db, h: Digest)
    requires Inv(db) && h in db.refresh
    ensures h.of < db.next && db.refresh[h].grant in db.grants && 0 !in db.grants
  {}

  lemma SweepCodes(db: Db, c1: bool, c2: bool, c3: bool, c4: bool, now: int, h: Digest)
    requires h in db.codes && db.codes[h].client in db.clients
    ensures h !in Clean(db, c1, c2, c3, c4, now).codes <==>
            (c1 && db.codes[h].expires <= now - 24 * 3600) || db.codes[h].client !in Clean(db, c1, c2, c3, c4, now).clients
  {
    hide WithoutRefreshOf, LiveRefresh, GrantsOfClients, StaleClients;
  }

  predicate EndsCode(db: Db, e: Event, h: Digest)
    requires h in db.codes
  {
    db.codes[h].client !in Apply(db, e).clients || db.codes[h].user !in Apply(db, e).users ||
    (e.op.Sweep? && e.op.c1 && db.codes[h].expires <= e.now - 24 * 3600)
  }

  /** A code ends exactly with its client or its account, or by a clean-up a day after it expired. */
  lemma CodeEndsExactlyWhen(db: Db, e: Event, h: Digest)
    requires Inv(db) && h in db.codes
    ensures h !in Apply(db, e).codes <==> EndsCode(db, e, h)
  {
    hide Inv, Apply, EndsCode;
    CodeFacts(db, h);
    match e.op
    case RemoveAccount(_) => RemovalEndsCode(db, e, h);
    case Evict(_) => EvictionEndsCode(db, e, h);
    case Sweep(_, _, _, _) => SweepEndsCode(db, e, h);
    case Disconnect(_, _) => PresentingEndsNoCode(db, e, h);
    case Redeem(_, _) => PresentingEndsNoCode(db, e, h);
    case Rotate(_, _) => PresentingEndsNoCode(db, e, h);
    case _ => AdditionsEndNoCode(db, e, h);
  }

  lemma RemovalEndsCode(db: Db, e: Event, h: Digest)
    requires Inv(db) && h in db.codes && e.op.RemoveAccount?
    ensures h !in Apply(db, e).codes <==> EndsCode(db, e, h)
  {
    hide Inv, DeleteUser;
    CodeFacts(db, h);
    RemovedAccountIsGone(db, e.op.user);
  }

  lemma EvictionEndsCode(db: Db, e: Event, h: Digest)
    requires Inv(db) && h in db.codes && e.op.Evict?
    ensures h !in Apply(db, e).codes <==> EndsCode(db, e, h)
  {
    hide Inv, RemoveClients, Evicted;
    CodeFacts(db, h);
    RemovedClientCodes(db, Evicted(db, e.op.max), h);
  }

  lemma SweepEndsCode(db: Db, e: Event, h: Digest)
    requires Inv(db) && h in db.codes && e.op.Sweep?
    ensures h !in Apply(db, e).codes <==> EndsCode(db, e, h)
  {
    hide Inv, Clean;
    CodeFacts(db, h);
    SweepCodes(db, e.op.c1, e.op.c2, e.op.c3, e.op.c4, e.now, h);
    CleanedRows(db, e.op.c1, e.op.c2, e.op.c3, e.op.c4, e.now);
  }

  lemma PresentingEndsNoCode(db: Db, e: Event, h: Digest)
    requires Inv(db) && h in db.codes && (e.op.Redeem? || e.op.Rotate? || e.op.Disconnect?)
    ensures h !in Apply(db, e).codes <==> EndsCode(db, e, h)
  {
    hide Inv, Exchange, OAuthTables.RefreshGrant, OAuthTables.RevokeOAuthGrant;
    CodeFacts(db, h);
    match e.op
    case Redeem(code, accepted) => ExchangeKeepsRows(db, code, accepted, e.now);
    case Rotate(refresh, client) => RotationKeepsRows(db, refresh, client, e.now);
    case Disconnect(user, grant) => RemovalsKeepRows(db, user, grant, {});
    case _ =>
  }

  lemma AdditionsEndNoCode(db: Db, e: Event, h: Digest)
    requires Inv(db) && h in db.codes
    requires e.op.AddUser? || e.op.Register? || e.op.Approve? || e.op.MintByHand? || e.op.RevokeByHand?
    ensures h !in Apply(db, e).codes <==> EndsCode(db, e, h)
  {
    hide Inv, Apply;
    CodeFacts(db, h);
    AdditionsKeepCodes(db, e, h);
  }

  lemma AdditionsKeepCodes(db: Db, e: Event, h: Digest)
    requires h in db.codes && db.codes[h].client in db.clients && db.codes[h].user in db.users
    requires e.op.AddUser? || e.op.Register? || e.op.Approve? || e.op.MintByHand? || e.op.RevokeByHand?
    ensures h in Apply(db, e).codes && db.codes[h].client in Apply(db, e).clients && db.codes[h].user in Apply(db, e).users
  {
    hide Column;
  }

  lemma RemovedClientCodes(db: Db, cs: set<Id>, h: Digest)
    requires h in db.codes && db.codes[h].client in db.clients
    ensures var d := RemoveClients(db, cs);
            (h in d.codes <==> db.codes[h].client in d.clients) && d.users == db.users
  {}

  lemma CodeFacts(db: Db, h: Digest)
    requires Inv(db) && h in db.codes
    ensures h.of < db.next && db.codes[h].client in db.clients && db.codes[h].user in db.users
    ensures forall c :: c in db.clients ==> c < db.next
  {}

  // ---- tokens made by hand

  /** What a lookup of that secret gives: a token of that user and name that reaches the listed scopes
      and forms, where a form list that names nothing means every form. */
  predicate Opens(found: Option<Token>, user: Id, name: string, scopes: seq<string>, forms: seq<string>, form: string) {
    found.Some? && found.value.user == user && found.value.name == name && found.value.grant == 0 &&
    Entries(found.value.scopes) == Entries(Join(scopes)) &&
    (ScopeOfColumn(found.value.forms).Allows(form) <==> NamesNothing(forms) || form in Entries(Join(forms)))
  }

  lemma HandMadeRow(db: Db, user: Id, name: string, scopes: seq<string>, forms: seq<string>, ttl: int, now: int, form: string)
    requires user != 0 && user in db.users
    ensures var d := CreateToken(db, user, name, scopes, forms, ttl, now);
            HashToken(db.next) in d.tokens && db.next < d.next &&
            var row := d.tokens[HashToken(db.next)];
            Opens(Some(row), user, name, scopes, forms, form) &&
            row.expires == (if ttl == 0 then Never else At(now + ttl)) && row.createdAt == now
  {
    hide Entries, Column, Join, ScopeOfColumn, NamesNothing;
    StoredColumnIsStable(scopes);
    ConsentedFormsReadBack(forms, form);
  }

  lemma TokenIsKept(a: Db, b: Db, h: Digest)
    requires Evolves(a, b) && h in a.tokens && h.of < a.next
    ensures h in b.tokens ==> b.tokens[h] == a.tokens[h]
  {}

  /** A token made by hand opens, at every later point of any run at which it has not been ended, to
      exactly the user, name, scopes and forms it was made for: until its lifetime is over, or for ever
      when that is zero. */
  lemma HandMadeTokenOpensExactly(db: Db, run: seq<Event>, i: nat, user: Id, name: string, scopes: seq<string>,
                                  forms: seq<string>, ttl: int, t: int, form: string)
    requires Inv(db) && i < |run| && run[i].op == MintByHand(user, name, scopes, forms, ttl)
    requires user in After(db, run[..i]).users
    requires HashToken(After(db, run[..i]).next) in After(db, run).tokens
    ensures var found := GetToken(After(db, run), After(db, run[..i]).next, t);
            if ttl == 0 || t < run[i].now + ttl then Opens(found, user, name, scopes, forms, form) else found == None
  {
    hide Apply, Evolves, Opens, Inv, CreateToken;
    var before := After(db, run[..i]);
    var h := HashToken(before.next);
    assert run[..|run|] == run;
    AfterNext(db, run, i);
    InvariantOverRuns(db, run[..i]);
    NextIsPositive(before);
    NoBlankAccount(before);
    MintingByHand(before, run[i]);
    HandMadeRow(before, user, name, scopes, forms, ttl, run[i].now, form);
    RunEvolves(db, run, i + 1, |run|);
    TokenIsKept(After(db, run[..i + 1]), After(db, run), h);
  }

  lemma NoBlankAccount(db: Db)
    requires Inv(db)
    ensures 0 !in db.users
  {}

  lemma MintingByHand(db: Db, e: Event)
    requires e.op.MintByHand?
    ensures Apply(db, e) == CreateToken(db, e.op.user, e.op.name, e.op.scopes, e.op.forms, e.op.ttl, e.now)
  {
    hide CreateToken;
  }

  lemma MintedTokensAreGranted(db: Db, g: Id, now: int, h: Digest)
    requires CanMint(db, g)
    ensures h in Mint(db, g, now).0.tokens && h !in db.tokens ==> Mint(db, g, now).0.tokens[h].grant == g
  {}

  lemma RedeemedTokensAreGranted(db: Db, raw: nat, accepted: bool, now: int, h: Digest)
    requires Inv(db) && h in Exchange(db, raw, accepted, now).0.tokens && h !in db.tokens
    ensures Exchange(db, raw, accepted, now).0.tokens[h].grant != 0
  {
    hide Inv, Mint, IssueGrant, RevokeGrants, CanMint;
    NextIsPositive(db);
    var c := HashToken(raw);
    if Exchange(db, raw, accepted, now).1.Issued? {
      IssuedCanMint(db, c, now);
      IssuedTokens(db, c, now, h);
      MintedTokensAreGranted(IssueGrant(Spend(db, c), c, now), db.next, now, h);
    } else {
      RefusalAddsNoToken(db, raw, accepted, now);
    }
  }

  lemma IssuedTokens(db: Db, c: Digest, now: int, h: Digest)
    requires c in db.codes
    ensures h in IssueGrant(Spend(db, c), c, now).tokens ==> h in db.tokens
  {}

  lemma RefusalAddsNoToken(db: Db, raw: nat, accepted: bool, now: int)
    requires !Exchange(db, raw, accepted, now).1.Issued?
    ensures Exchange(db, raw, accepted, now).0.tokens.Keys <= db.tokens.Keys
  {
    hide IssueGrant, Mint;
  }

  lemma RotatedTokensAreGranted(db: Db, raw: nat, client: Id, now: int, h: Digest)
    requires Inv(db) && h in RefreshGrant(db, raw, client, now).0.tokens && h !in db.tokens
    ensures RefreshGrant(db, raw, client, now).0.tokens[h].grant != 0
  {
    hide Linked, ColumnsNormal, Mint;
    KeysBelowNext(db);
    var r := HashToken(raw);
    if RefreshGrant(db, raw, client, now).1.Issued? {
      MintedTokensAreGranted(SpendRefresh(db, r), db.refresh[r].grant, now, h);
    }
  }

  lemma NewHandMadeToken(db: Db, e: Event, h: Digest)
    requires Inv(db) && h in Apply(db, e).tokens && h !in db.tokens && Apply(db, e).tokens[h].grant == 0
    ensures e.op.MintByHand? && h == HashToken(db.next) && e.op.user in db.users && e.op.user != 0
  {
    hide Inv, Exchange, RefreshGrant, Clean, MakeRoom, DeleteUser, OAuthTables.RevokeOAuthGrant, DeleteToken, CreateToken, CreateCode;
    match e.op
    case RemoveAccount(user) => RemovalsAddNoToken(db, user, 0);
    case Disconnect(user, grant) => RemovalsAddNoToken(db, user, grant);
    case RevokeByHand(user, id) => RemovalsAddNoToken(db, user, id);
    case MintByHand(user, name, scopes, forms, ttl) => HandMadeKey(db, user, name, scopes, forms, ttl, e.now);
    case Approve(consent) => ApprovingAddsNoToken(db, consent, e.now);
    case Redeem(code, accepted) => RedeemedTokensAreGranted(db, code, accepted, e.now, h);
    case Rotate(refresh, client) => RotatedTokensAreGranted(db, refresh, client, e.now, h);
    case Sweep(c1, c2, c3, c4) => SweepTokens(db, c1, c2, c3, c4, e.now);
    case Evict(max) => EvictionAddsNoToken(db, max);
    case _ =>
  }

  lemma HandMadeKey(db: Db, user: Id, name: string, scopes: seq<string>, forms: seq<string>, ttl: int, now: int)
    ensures var d := CreateToken(db, user, name, scopes, forms, ttl, now);
            d.tokens.Keys == db.tokens.Keys + if user != 0 && user in db.users then {HashToken(db.next)} else {}
  {
    hide Column;
  }

  lemma ApprovingAddsNoToken(db: Db, consent: AuthCode, now: int)
    ensures CreateCode(db, consent, now).tokens == db.tokens
  {}

  lemma RemovalsAddNoToken(db: Db, user: Id, id: Id)
    ensures DeleteUser(db, user).tokens.Keys <= db.tokens.Keys
    ensures OAuthTables.RevokeOAuthGrant(db, user, id).tokens.Keys <= db.tokens.Keys
    ensures DeleteToken(db, user, id).tokens.Keys <= db.tokens.Keys
  {}

  lemma EvictionAddsNoToken(db: Db, max: int)
    ensures MakeRoom(db, max).tokens == db.tokens
  {}

  /** A token without a grant was made by hand: by one call, for the user, scopes and forms it reaches. */
  lemma {:induction false} HandMadeTokenTracesToItsMaker(db: Db, run: seq<Event>, h: Digest, form: string) returns (m: nat)
    requires Inv(db) && h in After(db, run).tokens && h !in db.tokens && After(db, run).tokens[h].grant == 0
    ensures m < |run| && run[m].op.MintByHand? && h == HashToken(After(db, run[..m]).next)
    ensures var op := run[m].op; Opens(Some(After(db, run).tokens[h]), op.user, op.name, op.scopes, op.forms, form)
  {
    hide Apply, Inv, Opens, Evolves, CreateToken;
    var n := |run| - 1;
    var prev := After(db, run[..n]);
    InvariantOverRuns(db, run[..n]);
    if h in prev.tokens {
      StepEvolves(prev, run[n]);
      TokenBelowNext(prev, h);
      TokenIsKept(prev, After(db, run), h);
      m := HandMadeTokenTracesToItsMaker(db, run[..n], h, form);
      assert run[..n][..m] == run[..m];
    } else {
      m := n;
      NewHandMadeToken(prev, run[n], h);
      var op := run[n].op;
      MintingByHand(prev, run[n]);
      HandMadeRow(prev, op.user, op.name, op.scopes, op.forms, op.ttl, run[n].now, form);
    }
  }

  lemma TokenBelowNext(db: Db, h: Digest)
    requires Inv(db) && h in db.tokens
    ensures h.of < db.next
  {}

  // ---- issued tokens

  lemma MintedRows(db: Db, g: Id, now: int)
    requires CanMint(db, g)
    ensures var (d, pair) := Mint(db, g, now);
            d.grants == db.grants && pair.grant == g && pair.expiresIn == 3600 &&
            HashToken(pair.access) in d.tokens && HashToken(pair.refresh) in d.refresh &&
            var t, r := d.tokens[HashToken(pair.access)], d.refresh[HashToken(pair.refresh)];
            t.name == db.clients[db.grants[g].client].name && t.createdAt == now && t.expires == At(now + 3600) && t.grant == g &&
            r == Refresh(g, now + 30 * 24 * 3600, false)
  {
    hide Column, Entries;
  }

  /** Whatever an exchange or a refresh issues: an access token under the client's name that lasts an hour,
      and an unspent refresh token that lasts thirty days. */
  lemma IssuedRows(db: Db, e: Event)
    requires Inv(db) && (e.op.Redeem? || e.op.Rotate?) && Answer(db, e).Issued?
    ensures var d, pair := Apply(db, e), Answer(db, e).pair;
            pair.expiresIn == 3600 && pair.grant in d.grants && d.grants[pair.grant].client in d.clients &&
            HashToken(pair.access) in d.tokens && HashToken(pair.refresh) in d.refresh &&
            var t, r := d.tokens[HashToken(pair.access)], d.refresh[HashToken(pair.refresh)];
            t.name == d.clients[d.grants[pair.grant].client].name && t.createdAt == e.now && t.expires == At(e.now + 3600) &&
            t.grant == pair.grant && r == Refresh(pair.grant, e.now + 30 * 24 * 3600, false)
  {
    hide Inv, Mint, IssueGrant, Column, Entries, CanMint;
    match e.op
    case Redeem(code, accepted) =>
      var h := HashToken(code);
      ExchangeKeepsRows(db, code, accepted, e.now);
      IssuedGrant(db, h, e.now);
      IssuedFor(db, h, e.now);
      MintedRows(IssueGrant(Spend(db, h), h, e.now), db.next, e.now);
    case Rotate(refresh, client) =>
      var h := HashToken(refresh);
      RotationKeepsRows(db, refresh, client, e.now);
      SpendingRefresh(db, h);
      CanMintMeans(SpendRefresh(db, h), db.refresh[h].grant);
      MintedRows(SpendRefresh(db, h), db.refresh[h].grant, e.now);
  }

  lemma CanMintMeans(db: Db, g: Id)
    ensures CanMint(db, g) ==> g in db.grants && db.grants[g].client in db.clients
  {}

  lemma SpendingRefresh(db: Db, h: Digest)
    requires h in db.refresh
    ensures SpendRefresh(db, h).grants == db.grants && SpendRefresh(db, h).clients == db.clients
  {}

  lemma IssuedFor(db: Db, h: Digest, now: int)
    requires h in db.codes
    ensures IssueGrant(Spend(db, h), h, now).clients == db.clients
  {}

  // ---- listings

  /** A user is shown exactly their own connections, each with its client's name, and exactly the tokens
      they made by hand. */
  lemma ListingsAreTheUsersOwn(db: Db, user: Id)
    requires Inv(db)
    ensures forall g :: g in ListGrants(db, user) <==> g in db.grants && db.grants[g].user == user
    ensures forall g :: g in ListGrants(db, user) ==>
              ListGrants(db, user)[g].row == db.grants[g] && db.grants[g].client in db.clients &&
              ListGrants(db, user)[g].clientName == db.clients[db.grants[g].client].name
    ensures forall h :: h in ListTokens(db, user) <==> h in db.tokens && db.tokens[h].user == user && db.tokens[h].grant == 0
    ensures forall h :: h in ListTokens(db, user) ==> ListTokens(db, user)[h] == db.tokens[h]
  {}

  // ---- a registered client

  /** A client stays, under the name it gave, for an hour after it registered at least: whatever
      happens short of an eviction. */
  lemma {:induction false} RegisteredClientStays(db: Db, run: seq<Event>, i: nat, name: string)
    requires Inv(db) && i < |run| && run[i].op == Register(name)
    requires forall k :: i < k < |run| ==> !run[k].op.Evict? && (run[k].op.Sweep? ==> run[k].now <= run[i].now + 3600)
    ensures var id := After(db, run[..i]).next;
            id in After(db, run).clients && After(db, run).clients[id] == Client(name, run[i].now)
  {
    hide Apply, Inv, Ahead;
    var n := |run| - 1;
    InvariantOverRuns(db, run[..n]);
    if i < n {
      assert run[..n][..i] == run[..i];
      RegisteredClientStays(db, run[..n], i, name);
      ClientEndsExactlyWhen(After(db, run[..n]), run[n], After(db, run[..i]).next);
    } else {
      Registering(After(db, run[..n]), run[n]);
    }
  }

  lemma Registering(db: Db, e: Event)
    requires e.op.Register?
    ensures db.next in Apply(db, e).clients && Apply(db, e).clients[db.next] == Client(e.op.name, e.now)
  {}
}
