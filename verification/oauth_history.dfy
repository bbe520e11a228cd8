/** What a credential's history must have been: replays revoke for good, every access token goes
    back to one approval, and tokens and grants end only for the listed reasons. */
module OAuthHistory {
  import opened Scopes
  import opened OAuthTables
  import opened OAuthInvariant
  import opened OAuthRuns

  // ---- replay

  /** The grant that the presented credential issued, 0 for none. */
  function IssuedBy(db: Db, e: Event): Id
    requires e.op.Redeem? || e.op.Rotate?
  {
    match e.op
    case Redeem(code, _) => if HashToken(code) in db.codes then db.codes[HashToken(code)].grant else 0
    case Rotate(refresh, _) => if HashToken(refresh) in db.refresh then db.refresh[HashToken(refresh)].grant else 0
  }

  predicate GrantGone(db: Db, g: Id) {
    g !in db.grants &&
    (forall h :: h in db.tokens ==> db.tokens[h].grant != g) &&
    (forall h :: h in db.refresh ==> db.refresh[h].grant != g)
  }

  /** Nothing belonging to any other grant, and no code, client or user, differs. */
  predicate OnlyGrantDiffers(a: Db, b: Db, g: Id) {
    a.codes == b.codes && a.clients == b.clients && a.users == b.users &&
    a.grants - {g} == b.grants - {g} &&
    (forall h :: h in a.tokens && a.tokens[h].grant != g ==> h in b.tokens && b.tokens[h] == a.tokens[h]) &&
    (forall h :: h in b.tokens ==> h in a.tokens && b.tokens[h] == a.tokens[h]) &&
    (forall h :: h in a.refresh && a.refresh[h].grant != g ==> h in b.refresh && b.refresh[h] == a.refresh[h]) &&
    (forall h :: h in b.refresh ==> h in a.refresh && b.refresh[h] == a.refresh[h])
  }

  lemma RevokeRemovesOne(db: Db, g: Id)
    ensures GrantGone(RevokeGrants(db, {g}), g) && OnlyGrantDiffers(db, RevokeGrants(db, {g}), g)
  {}

  lemma ReplayIsRevocation(db: Db, e: Event)
    requires (e.op.Redeem? || e.op.Rotate?) && Answer(db, e).Reused?
    ensures Apply(db, e) == Replayed(db, IssuedBy(db, e))
  {}

  lemma IssuedBelowNext(db: Db, e: Event)
    requires Inv(db) && (e.op.Redeem? || e.op.Rotate?)
    ensures IssuedBy(db, e) < db.next
  {
    assert e.op.Redeem? && HashToken(e.op.code) in db.codes ==>
        Issuer(db.codes[HashToken(e.op.code)], db.grants, db.next);
  }

  lemma ReplayRevokes(db: Db, e: Event)
    requires Inv(db) && (e.op.Redeem? || e.op.Rotate?) && Answer(db, e).Reused?
    ensures IssuedBy(db, e) < Apply(db, e).next
    ensures IssuedBy(db, e) == 0 ==> Apply(db, e) == db
    ensures IssuedBy(db, e) != 0 ==>
              GrantGone(Apply(db, e), IssuedBy(db, e)) && OnlyGrantDiffers(db, Apply(db, e), IssuedBy(db, e))
  {
    hide Inv, IssuedBy, Apply, GrantGone, OnlyGrantDiffers;
    ReplayIsRevocation(db, e);
    IssuedBelowNext(db, e);
    RevokeRemovesOne(db, IssuedBy(db, e));
  }

  lemma GoneStaysGone(a: Db, b: Db, g: Id)
    requires Evolves(a, b) && Inv(b) && 0 < g < a.next && g !in a.grants
    ensures GrantGone(b, g)
  {}

  /** Whenever a replay is answered, the grant the credential issued has no row, no access token
      and no refresh token then or at any later point of the run. */
  lemma ReplayedGrantNeverReturns(db: Db, run: seq<Event>, i: nat, j: nat)
    requires Inv(db) && i < j <= |run|
    requires run[i].op.Redeem? || run[i].op.Rotate?
    requires Answer(After(db, run[..i]), run[i]).Reused?
    ensures var g := IssuedBy(After(db, run[..i]), run[i]); g != 0 ==> GrantGone(After(db, run[..j]), g)
  {
    hide Inv, Apply, Answer, Evolves;
    var before := After(db, run[..i]);
    var g := IssuedBy(before, run[i]);
    InvariantOverRuns(db, run[..i]);
    InvariantOverRuns(db, run[..j]);
    ReplayRevokes(before, run[i]);
    AfterNext(db, run, i);
    RunEvolves(db, run, i + 1, j);
    if g != 0 {
      GoneStaysGone(After(db, run[..i + 1]), After(db, run[..j]), g);
    }
  }

  // ---- where an access token comes from

  predicate NoNewRows(a: Db, b: Db) {
    b.grants.Keys <= a.grants.Keys && b.codes.Keys <= a.codes.Keys
  }

  lemma DeletionsAddNothing(db: Db, user: Id, id: Id, cs: set<Id>)
    ensures NoNewRows(db, DeleteUser(db, user))
    ensures NoNewRows(db, RemoveClients(db, cs))
    ensures NoNewRows(db, RevokeOAuthGrant(db, user, id))
    ensures NoNewRows(db, DeleteToken(db, user, id))
  {}

  lemma CleanAddsNothing(db: Db, codes: bool, refresh: bool, tokens: bool, clients: bool, now: int)
    ensures NoNewRows(db, Clean(db, codes, refresh, tokens, clients, now))
  {}

  lemma OtherStepsAddNothing(db: Db, e: Event)
    requires !e.op.Redeem? && !e.op.Approve?
    ensures NoNewRows(db, Apply(db, e))
  {
    hide Clean, RemoveClients, DeleteUser, RefreshGrant, RevokeOAuthGrant, DeleteToken, Evicted;
    match e.op
    case RemoveAccount(user) => DeletionsAddNothing(db, user, 0, {});
    case Evict(max) => DeletionsAddNothing(db, 0, 0, Evicted(db, max));
    case Disconnect(user, grant) => DeletionsAddNothing(db, user, grant, {});
    case RevokeByHand(user, id) => DeletionsAddNothing(db, user, id, {});
    case Sweep(c1, c2, c3, c4) => CleanAddsNothing(db, c1, c2, c3, c4, e.now);
    case Rotate(refresh, client) => RefreshRows(db, refresh, client, e.now);
    case _ =>
  }

  lemma OnlyRedemptionsAddGrants(db: Db, e: Event)
    requires !e.op.Redeem?
    ensures Apply(db, e).grants.Keys <= db.grants.Keys
  {
    if !e.op.Approve? {
      OtherStepsAddNothing(db, e);
    }
  }

  lemma NewGrantIsRedeemed(db: Db, e: Event, g: Id)
    requires g in Apply(db, e).grants && g !in db.grants
    ensures e.op.Redeem? && e.op.accepted && HashToken(e.op.code) in db.codes
    ensures var c := db.codes[HashToken(e.op.code)];
            !c.used && e.now < c.expires &&
            Apply(db, e).grants[g] == Grant(c.client, c.user, c.redirect, c.scopes, c.forms, e.now)
  {
    if !e.op.Redeem? {
      OnlyRedemptionsAddGrants(db, e);
    }
  }

  /** The redemption that created a grant, with the code row it was made from. */
  lemma {:induction false} GrantTracesToRedemption(db: Db, run: seq<Event>, g: Id) returns (r: nat)
    requires Inv(db) && g in After(db, run).grants && g !in db.grants
    ensures r < |run| && run[r].op.Redeem? && run[r].op.accepted
    ensures HashToken(run[r].op.code) in After(db, run[..r]).codes
    ensures var c := After(db, run[..r]).codes[HashToken(run[r].op.code)];
            var row := After(db, run).grants[g];
            !c.used && run[r].now < c.expires &&
            row.client == c.client && row.user == c.user && row.scopes == c.scopes && row.forms == c.forms
  {
    hide Apply, Entries, Inv;
    var n := |run| - 1;
    var prev := After(db, run[..n]);
    if g in prev.grants {
      r := GrantTracesToRedemption(db, run[..n], g);
      assert run[..n][..r] == run[..r];
      InvariantOverRuns(db, run[..n]);
      KeysBelowNext(prev);
      StepEvolves(prev, run[n]);
    } else {
      r := n;
      NewGrantIsRedeemed(prev, run[n], g);
    }
  }

  lemma KeysBelowNext(db: Db)
    requires Inv(db)
    ensures forall g :: g in db.grants ==> 0 < g < db.next
    ensures forall h :: h in db.codes ==> 0 < h.of < db.next
  {}

  lemma ExchangeAddsNoCode(db: Db, raw: nat, accepted: bool, now: int)
    ensures Exchange(db, raw, accepted, now).0.codes.Keys <= db.codes.Keys
  {}

  lemma OnlyApprovalsAddCodes(db: Db, e: Event)
    requires !e.op.Approve?
    ensures Apply(db, e).codes.Keys <= db.codes.Keys
  {
    hide Exchange;
    if e.op.Redeem? {
      ExchangeAddsNoCode(db, e.op.code, e.op.accepted, e.now);
    } else {
      OtherStepsAddNothing(db, e);
    }
  }

  lemma NewCodeIsApproved(db: Db, e: Event, h: Digest)
    requires h in Apply(db, e).codes && h !in db.codes
    ensures e.op.Approve? && h == HashToken(db.next)
    ensures var c := Apply(db, e).codes[h];
            c.client == e.op.consent.client && c.user == e.op.consent.user && c.redirect == e.op.consent.redirect &&
            c.challenge == e.op.consent.challenge && c.resource == e.op.consent.resource &&
            c.scopes == Column(e.op.consent.scopes) && c.forms == Column(e.op.consent.forms) &&
            c.expires == e.now + 60
  {
    if !e.op.Approve? {
      OnlyApprovalsAddCodes(db, e);
    }
  }

  /** The approval that created a code. */
  lemma {:induction false} CodeTracesToApproval(db: Db, run: seq<Event>, h: Digest) returns (a: nat)
    requires Inv(db) && h in After(db, run).codes && h !in db.codes
    ensures a < |run| && run[a].op.Approve? && h == HashToken(After(db, run[..a]).next)
    ensures var c := After(db, run).codes[h];
            c.client == run[a].op.consent.client && c.user == run[a].op.consent.user &&
            c.redirect == run[a].op.consent.redirect && c.challenge == run[a].op.consent.challenge &&
            c.resource == run[a].op.consent.resource &&
            c.scopes == Column(run[a].op.consent.scopes) && c.forms == Column(run[a].op.consent.forms) &&
            c.expires == run[a].now + 60
  {
    hide Apply, Column, Inv;
    var n := |run| - 1;
    var prev := After(db, run[..n]);
    if h in prev.codes {
      a := CodeTracesToApproval(db, run[..n], h);
      assert run[..n][..a] == run[..a];
      InvariantOverRuns(db, run[..n]);
      KeysBelowNext(prev);
      StepEvolves(prev, run[n]);
    } else {
      a := n;
      NewCodeIsApproved(prev, run[n], h);
    }
  }

  /** A database with accounts and registrations but nothing issued yet. */
  predicate NothingIssued(db: Db) {
    db.codes == map[] && db.grants == map[] && db.refresh == map[] && db.tokens == map[]
  }

  /** Every access token a client can hold, after any run and however often its grant was
      refreshed, goes back to one approval redeemed within the code's lifetime, and reaches exactly
      what that approval listed: the same user, the same scopes, and the same forms, where a form
      list that names nothing means every form. */
  lemma AccessTokenTracesToApproval(db: Db, run: seq<Event>, h: Digest, form: string) returns (a: nat, r: nat)
    requires Inv(db) && NothingIssued(db)
    requires h in After(db, run).tokens && After(db, run).tokens[h].grant != 0
    ensures a < r < |run| && run[a].op.Approve? && run[r].op.Redeem? && run[r].op.accepted
    ensures run[r].op.code == After(db, run[..a]).next && run[r].now < run[a].now + 60
    ensures var t, consent := After(db, run).tokens[h], run[a].op.consent;
            t.user == consent.user &&
            Entries(t.scopes) == Entries(Join(consent.scopes)) &&
            (ScopeOfColumn(t.forms).Allows(form) <==>
             NamesNothing(consent.forms) || form in Entries(Join(consent.forms)))
  {
    hide Apply, Inv, Linked, ColumnsNormal, Entries, Column, ScopeOfColumn;
    var end := After(db, run);
    var t := end.tokens[h];
    InvariantOverRuns(db, run);
    TokenIsTied(end, h);
    r := GrantTracesToRedemption(db, run, t.grant);
    var code := HashToken(run[r].op.code);
    a := CodeTracesToApproval(db, run[..r], code);
    assert run[..r][..a] == run[..a];
    StoredColumnIsStable(run[a].op.consent.scopes);
    ConsentedFormsReadBack(run[a].op.consent.forms, form);
  }

  lemma TokenIsTied(db: Db, h: Digest)
    requires Inv(db) && h in db.tokens && db.tokens[h].grant != 0
    ensures Tied(db.tokens[h], db.grants)
  {}

  // ---- what a client is handed works, and only as long as it should

  predicate PairWorks(db: Db, pair: TokenPair, issued: int, t: int) {
    pair.grant in db.grants && pair.scopes == Entries(db.grants[pair.grant].scopes) &&
    (match GetToken(db, pair.access, t)
     case Some(token) => t < issued + pair.expiresIn && token.grant == pair.grant &&
                         Tied(token, db.grants)
     case None => t >= issued + pair.expiresIn) &&
    (RefreshGrant(db, pair.refresh, db.grants[pair.grant].client, t).1.Issued? <==> t < issued + REFRESH_TOKEN_TTL)
  }

  lemma MintedPairWorks(db: Db, g: Id, now: int, t: int)
    requires CanMint(db, g) && db.next > 0
    requires Column(Entries(db.grants[g].scopes)) == db.grants[g].scopes
    requires Column(Entries(db.grants[g].forms)) == db.grants[g].forms
    ensures var (d, pair) := Mint(db, g, now); d.grants == db.grants && pair.grant == g && PairWorks(d, pair, now, t)
  {
    hide Column, Entries;
  }

  lemma ConsentIsStored(db: Db, h: Digest)
    requires Inv(db) && h in db.codes
    ensures Column(Entries(db.codes[h].scopes)) == db.codes[h].scopes
    ensures Column(Entries(db.codes[h].forms)) == db.codes[h].forms
  {
    NormalColumnIsCopied(db.codes[h].scopes);
    NormalColumnIsCopied(db.codes[h].forms);
  }

  lemma GrantIsStored(db: Db, g: Id)
    requires Inv(db) && g in db.grants
    ensures Column(Entries(db.grants[g].scopes)) == db.grants[g].scopes
    ensures Column(Entries(db.grants[g].forms)) == db.grants[g].forms
  {
    NormalColumnIsCopied(db.grants[g].scopes);
    NormalColumnIsCopied(db.grants[g].forms);
  }

  /** The grant an exchange makes is the code's own. */
  lemma IssuedGrant(db: Db, h: Digest, now: int)
    requires h in db.codes
    ensures var d, c := IssueGrant(Spend(db, h), h, now), db.codes[h];
            d.next == db.next + 1 && db.next in d.grants &&
            d.grants[db.next] == Grant(c.client, c.user, c.redirect, c.scopes, c.forms, now)
    ensures db.codes[h].client in db.clients && db.codes[h].user in db.users ==>
              CanMint(IssueGrant(Spend(db, h), h, now), db.next)
  {}

  /** Whatever an exchange or a refresh issues: the access token opens exactly until its lifetime is
      over, to the grant's own user, scopes and forms, and the refresh token can be exchanged by the
      grant's client exactly until its own is. */
  lemma IssuedPairWorks(db: Db, e: Event, t: int)
    requires Inv(db) && (e.op.Redeem? || e.op.Rotate?) && Answer(db, e).Issued?
    ensures PairWorks(Apply(db, e), Answer(db, e).pair, e.now, t)
  {
    hide Inv, Mint, IssueGrant, PairWorks, Column, Entries, CanMint;
    KeysBelowNext(db);
    NextIsPositive(db);
    match e.op
    case Redeem(code, _) =>
      var h := HashToken(code);
      ConsentIsStored(db, h);
      IssuedGrant(db, h, e.now);
      MintedPairWorks(IssueGrant(Spend(db, h), h, e.now), db.next, e.now, t);
    case Rotate(refresh, _) =>
      var h := HashToken(refresh);
      GrantIsStored(db, db.refresh[h].grant);
      MintedPairWorks(SpendRefresh(db, h), db.refresh[h].grant, e.now, t);
  }

  lemma NextIsPositive(db: Db)
    requires Inv(db)
    ensures db.next > 0
  {}

  // ---- what ends an access token

  /** The events that end a token, one reason each; everything else leaves it. A rotation leaves
      the grant's earlier access tokens to run out. */
  predicate Ends(db: Db, e: Event, t: Token)
    requires t.grant != 0 ==> t.grant in db.grants
  {
    match e.op
    case RemoveAccount(user) => t.user == user && |db.users| > 1
    case RevokeByHand(user, id) => t.user == user && t.id == id
    case Disconnect(user, grant) => t.grant != 0 && t.grant == grant && db.grants[grant].user == user
    case Sweep(_, _, tokens, _) => tokens && t.grant != 0 && Expired(t, e.now)
    case Redeem(code, _) =>
      t.grant != 0 &&
      ((Answer(db, e).Reused? && t.grant == IssuedBy(db, e)) ||
       (Answer(db, e).Issued? && t.grant in GrantsBetween(db, db.codes[HashToken(code)].client, db.codes[HashToken(code)].user)))
    case Rotate(_, _) => t.grant != 0 && Answer(db, e).Reused? && t.grant == IssuedBy(db, e)
    case _ => false
  }

  lemma SweepTokens(db: Db, c1: bool, c2: bool, c3: bool, c4: bool, now: int)
    ensures Clean(db, c1, c2, c3, c4, now).tokens == if c3 then CleanTokens(db, now).tokens else db.tokens
  {
    hide StaleClients, WithoutRefreshOf;
  }

  lemma MintKeepsTokens(db: Db, g: Id, now: int, h: Digest)
    requires CanMint(db, g) && h.of < db.next
    ensures h in Mint(db, g, now).0.tokens <==> h in db.tokens
  {}

  lemma RedeemTokens(db: Db, raw: nat, accepted: bool, now: int, h: Digest)
    requires h.of < db.next && Exchange(db, raw, accepted, now).1.Issued?
    ensures var c := db.codes[HashToken(raw)];
            h in Exchange(db, raw, accepted, now).0.tokens <==>
            h in db.tokens && db.tokens[h].grant !in GrantsBetween(db, c.client, c.user)
  {
    var c := HashToken(raw);
    MintKeepsTokens(IssueGrant(Spend(db, c), c, now), db.next, now, h);
  }

  lemma RotateTokens(db: Db, raw: nat, client: Id, now: int, h: Digest)
    requires h.of < db.next && RefreshGrant(db, raw, client, now).1.Issued?
    ensures h in RefreshGrant(db, raw, client, now).0.tokens <==> h in db.tokens
  {
    var r := HashToken(raw);
    MintKeepsTokens(SpendRefresh(db, r), db.refresh[r].grant, now, h);
  }

  lemma TokenFacts(db: Db, h: Digest)
    requires Inv(db) && h in db.tokens
    ensures h.of < db.next && db.tokens[h].user in db.users && 0 !in db.grants
    ensures db.tokens[h].grant != 0 ==> db.tokens[h].grant in db.grants
  {}

  lemma RefusalKeepsTokens(db: Db, e: Event)
    requires (e.op.Redeem? || e.op.Rotate?) && !Answer(db, e).Issued? && !Answer(db, e).Reused?
    ensures Apply(db, e).tokens == db.tokens
  {}

  /** In every reachable state a token ends in a step exactly when that step is one of the listed
      reasons: revoking one grant never takes another's tokens, eviction and client pruning take
      none, and a token minted by hand ends only with its account or by its owner's hand. */
  lemma TokenEndsExactlyWhen(db: Db, e: Event, h: Digest)
    requires Inv(db) && h in db.tokens
    ensures db.tokens[h].grant != 0 ==> db.tokens[h].grant in db.grants
    ensures h !in Apply(db, e).tokens <==> Ends(db, e, db.tokens[h])
  {
    hide Inv, Clean, Exchange, RefreshGrant, Column;
    TokenFacts(db, h);
    match e.op
    case Sweep(c1, c2, c3, c4) => SweepTokens(db, c1, c2, c3, c4, e.now);
    case Redeem(code, accepted) =>
      match Answer(db, e) {
        case Reused => ReplayIsRevocation(db, e);
        case Issued(_) => RedeemTokens(db, code, accepted, e.now, h);
        case _ => RefusalKeepsTokens(db, e);
      }
    case Rotate(refresh, client) =>
      match Answer(db, e) {
        case Reused => ReplayIsRevocation(db, e);
        case Issued(_) => RotateTokens(db, refresh, client, e.now, h);
        case _ => RefusalKeepsTokens(db, e);
      }
    case _ =>
  }
}
