/** What holds in every reachable state of the OAuth tables, and why no operation breaks it. */
module OAuthInvariant {
  import opened Scopes
  import opened OAuthTables

  /** The link SQLite does not enforce: an access token's grant exists, belongs to the same user
      and was consented with exactly the token's scopes and forms. */
  predicate TokensTied(tokens: map<Digest, Token>, grants: map<Id, Grant>) {
    forall h :: h in tokens && tokens[h].grant != 0 ==> Tied(tokens[h], grants)
  }

  predicate Tied(t: Token, grants: map<Id, Grant>) {
    t.grant in grants &&
    grants[t.grant].user == t.user &&
    grants[t.grant].scopes == t.scopes &&
    grants[t.grant].forms == t.forms
  }

  predicate TokensOwned(tokens: map<Digest, Token>, users: set<Id>) {
    forall h :: h in tokens ==> tokens[h].user in users
  }

  predicate GrantsOwned(grants: map<Id, Grant>, clients: map<Id, Client>, users: set<Id>) {
    forall g :: g in grants ==> grants[g].client in clients && grants[g].user in users
  }

  predicate RefreshOwned(refresh: map<Digest, Refresh>, grants: map<Id, Grant>) {
    forall h :: h in refresh ==> refresh[h].grant in grants
  }

  predicate OneGrantPerPair(grants: map<Id, Grant>) {
    forall g, k :: (g in grants && k in grants &&
                    grants[g].client == grants[k].client && grants[g].user == grants[k].user) ==> g == k
  }

  predicate OneLiveRefresh(refresh: map<Digest, Refresh>) {
    forall h, k :: (h in refresh && k in refresh && refresh[h].grant == refresh[k].grant &&
                    !refresh[h].used && !refresh[k].used) ==> h == k
  }

  predicate CodesOwned(codes: map<Digest, Code>, clients: map<Id, Client>, users: set<Id>) {
    forall h :: h in codes ==> codes[h].client in clients && codes[h].user in users
  }

  /** Every stored list column is in the form that splitting and storing it again leaves alone. */
  predicate ColumnsNormal(codes: map<Digest, Code>, grants: map<Id, Grant>) {
    (forall h :: h in codes ==> Normal(codes[h].scopes) && Normal(codes[h].forms)) &&
    (forall g :: g in grants ==> Normal(grants[g].scopes) && Normal(grants[g].forms))
  }

  /** A code that issued a grant is spent, and the grant, while it lives, is what the code says. */
  predicate Issuer(c: Code, grants: map<Id, Grant>, next: nat) {
    c.grant != 0 ==>
      c.used && c.grant < next &&
      (c.grant in grants ==>
         var g := grants[c.grant];
         g.client == c.client && g.user == c.user && g.redirect == c.redirect &&
         g.scopes == c.scopes && g.forms == c.forms)
  }

  predicate CodesIssue(codes: map<Digest, Code>, grants: map<Id, Grant>, next: nat) {
    forall h :: h in codes ==> Issuer(codes[h], grants, next)
  }

  predicate OneCodePerGrant(codes: map<Digest, Code>) {
    forall h, k :: (h in codes && k in codes && codes[h].grant == codes[k].grant != 0) ==> h == k
  }

  predicate Bounded(db: Db) {
    db.next >= 1 &&
    (forall u :: u in db.users ==> 0 < u < db.next) &&
    (forall c :: c in db.clients ==> 0 < c < db.next) &&
    (forall g :: g in db.grants ==> 0 < g < db.next) &&
    (forall h :: h in db.codes ==> 0 < h.of < db.next) &&
    (forall h :: h in db.refresh ==> 0 < h.of < db.next) &&
    (forall h :: h in db.tokens ==> 0 < h.of < db.next && 0 < db.tokens[h].id < db.next)
  }

  /** The invariant on keys and links. */
  predicate Linked(db: Db) {
    Bounded(db) &&
    TokensTied(db.tokens, db.grants) &&
    TokensOwned(db.tokens, db.users) &&
    GrantsOwned(db.grants, db.clients, db.users) &&
    RefreshOwned(db.refresh, db.grants) &&
    OneGrantPerPair(db.grants) &&
    OneLiveRefresh(db.refresh) &&
    CodesOwned(db.codes, db.clients, db.users) &&
    CodesIssue(db.codes, db.grants, db.next) &&
    OneCodePerGrant(db.codes)
  }

  predicate Inv(db: Db) {
    Linked(db) && ColumnsNormal(db.codes, db.grants)
  }

  // ---- deletions

  lemma RevokeLinked(db: Db, gs: set<Id>)
    requires Linked(db) && 0 !in gs
    ensures Linked(RevokeGrants(db, gs))
  {}

  /** Evicting and pruning clients is safe only because it never touches one with a grant: the
      cascade it sets off would leave that grant's access tokens behind. */
  lemma RemoveClientsLinked(db: Db, cs: set<Id>)
    requires Linked(db) && cs <= Ungranted(db)
    ensures Linked(RemoveClients(db, cs))
    ensures RemoveClients(db, cs).grants == db.grants
    ensures RemoveClients(db, cs).refresh == db.refresh
  {
    assert GrantsOfClients(db, cs) == {};
    assert db.grants - {} == db.grants;
    assert WithoutRefreshOf(db.refresh, {}) == db.refresh;
  }

  /** Deleting an account: its tokens go by their own user column, which TokensTied makes the same
      rows as those of its grants. */
  lemma RemoveUserLinked(db: Db, user: Id)
    requires Linked(db)
    ensures Linked(RemoveUser(db, user))
  {}

  lemma CleanCodesLinked(db: Db, now: int)
    requires Linked(db)
    ensures Linked(CleanCodes(db, now))
  {}

  lemma CleanRefreshLinked(db: Db, now: int)
    requires Linked(db)
    ensures Linked(CleanRefresh(db, now))
  {}

  lemma CleanTokensLinked(db: Db, now: int)
    requires Linked(db)
    ensures Linked(CleanTokens(db, now))
  {}

  lemma CleanClientsLinked(db: Db, now: int)
    requires Linked(db)
    ensures Linked(CleanClients(db, now)) && CleanClients(db, now).grants == db.grants
  {
    hide Linked, RemoveClients;
    RemoveClientsLinked(db, StaleClients(db, now));
  }

  lemma EitherLinked(done: bool, after: Db, before: Db, grants: map<Id, Grant>)
    requires Linked(after) && Linked(before) && after.grants == before.grants == grants
    ensures Linked(Either(done, after, before)) && Either(done, after, before).grants == grants
  {
    hide Linked;
  }

  lemma CleanLinked(db: Db, codes: bool, refresh: bool, tokens: bool, clients: bool, now: int)
    requires Linked(db)
    ensures Linked(Clean(db, codes, refresh, tokens, clients, now))
    ensures Clean(db, codes, refresh, tokens, clients, now).grants == db.grants
  {
    hide Linked, CleanClients, Either;
    CleanCodesLinked(db, now);
    var d1 := Either(codes, CleanCodes(db, now), db);
    EitherLinked(codes, CleanCodes(db, now), db, db.grants);
    CleanRefreshLinked(d1, now);
    var d2 := Either(refresh, CleanRefresh(d1, now), d1);
    EitherLinked(refresh, CleanRefresh(d1, now), d1, db.grants);
    CleanTokensLinked(d2, now);
    var d3 := Either(tokens, CleanTokens(d2, now), d2);
    EitherLinked(tokens, CleanTokens(d2, now), d2, db.grants);
    CleanClientsLinked(d3, now);
    EitherLinked(clients, CleanClients(d3, now), d3, db.grants);
  }

  // ---- issuing

  lemma InsertTokenLinked(db: Db, user: Id, name: string, scopes: seq<string>, forms: seq<string>,
                          ttl: int, grant: Id, now: int)
    requires Linked(db) && user in db.users
    requires grant != 0 ==>
               grant in db.grants && db.grants[grant].user == user &&
               db.grants[grant].scopes == Column(scopes) && db.grants[grant].forms == Column(forms)
    ensures Linked(InsertToken(db, user, name, scopes, forms, ttl, grant, now))
  {}

  predicate NoLiveRefresh(db: Db, g: Id) {
    forall h :: h in db.refresh && db.refresh[h].grant == g ==> db.refresh[h].used
  }

  lemma MintLinked(db: Db, g: Id, now: int)
    requires Linked(db) && CanMint(db, g) && NoLiveRefresh(db, g)
    requires Column(Entries(db.grants[g].scopes)) == db.grants[g].scopes
    requires Column(Entries(db.grants[g].forms)) == db.grants[g].forms
    ensures Linked(Mint(db, g, now).0)
  {
    var row := db.grants[g];
    InsertTokenLinked(db, row.user, db.clients[row.client].name, Entries(row.scopes), Entries(row.forms),
                      ACCESS_TOKEN_TTL, g, now);
  }

  lemma AddGrantCodes(db: Db, h: Digest, now: int)
    requires Bounded(db) && CodesIssue(db.codes, db.grants, db.next) && OneCodePerGrant(db.codes)
    requires h in db.codes && db.codes[h].used && db.codes[h].grant == 0
    ensures var d := AddGrant(db, h, now); CodesIssue(d.codes, d.grants, d.next) && OneCodePerGrant(d.codes)
  {
    var d := AddGrant(db, h, now);
    forall k | k in d.codes
      ensures Issuer(d.codes[k], d.grants, d.next)
    {
      assert k != h ==> d.codes[k] == db.codes[k] && Issuer(db.codes[k], db.grants, db.next);
    }
  }

  lemma AddGrantUnique(grants: map<Id, Grant>, g: Id, row: Grant)
    requires OneGrantPerPair(grants) && g !in grants
    requires forall k :: k in grants ==> !(grants[k].client == row.client && grants[k].user == row.user)
    ensures OneGrantPerPair(grants[g := row])
  {}

  lemma AddGrantRows(db: Db, h: Digest, now: int)
    requires Linked(db) && h in db.codes
    ensures var d := AddGrant(db, h, now);
            Bounded(d) && TokensTied(d.tokens, d.grants) && GrantsOwned(d.grants, d.clients, d.users) &&
            RefreshOwned(d.refresh, d.grants) && CodesOwned(d.codes, d.clients, d.users) &&
            CanMint(d, db.next) && NoLiveRefresh(d, db.next)
  {}

  lemma IssueGrantLinked(db: Db, h: Digest, now: int)
    requires Linked(db) && h in db.codes && db.codes[h].used && db.codes[h].grant == 0
    ensures Linked(IssueGrant(db, h, now))
    ensures CanMint(IssueGrant(db, h, now), db.next)
    ensures NoLiveRefresh(IssueGrant(db, h, now), db.next)
  {
    var c := db.codes[h];
    var gs := GrantsBetween(db, c.client, c.user);
    RevokeLinked(db, gs);
    var d := RevokeGrants(db, gs);
    AddGrantCodes(d, h, now);
    AddGrantRows(d, h, now);
    AddGrantUnique(d.grants, d.next, AddGrant(d, h, now).grants[d.next]);
  }

  lemma SpendLinked(db: Db, h: Digest)
    requires Linked(db) && h in db.codes
    ensures Linked(Spend(db, h))
  {}

  lemma ExchangeLinked(db: Db, raw: nat, accepted: bool, now: int)
    requires Inv(db)
    ensures Linked(Exchange(db, raw, accepted, now).0)
    ensures !Exchange(db, raw, accepted, now).1.Failed?
  {
    var h := HashToken(raw);
    if raw != 0 && h in db.codes {
      var c := db.codes[h];
      if c.used {
        RevokeLinked(db, if c.grant == 0 then {} else {c.grant});
      } else if c.expires > now {
        SpendLinked(db, h);
        if accepted {
          IssueGrantLinked(Spend(db, h), h, now);
          NormalColumnIsCopied(c.scopes);
          NormalColumnIsCopied(c.forms);
          MintLinked(IssueGrant(Spend(db, h), h, now), db.next, now);
        }
      }
    }
  }

  lemma SpendRefreshLinked(db: Db, h: Digest)
    requires Linked(db) && h in db.refresh
    ensures Linked(SpendRefresh(db, h))
    ensures !db.refresh[h].used ==> NoLiveRefresh(SpendRefresh(db, h), db.refresh[h].grant)
  {}

  lemma RefreshLinked(db: Db, raw: nat, client: Id, now: int)
    requires Inv(db)
    ensures Linked(RefreshGrant(db, raw, client, now).0)
  {
    var h := HashToken(raw);
    if raw != 0 && h in db.refresh {
      var r := db.refresh[h];
      if r.used {
        RevokeLinked(db, {r.grant});
      } else {
        SpendRefreshLinked(db, h);
        NormalColumnIsCopied(db.grants[r.grant].scopes);
        NormalColumnIsCopied(db.grants[r.grant].forms);
        MintLinked(SpendRefresh(db, h), r.grant, now);
      }
    }
  }

  // ---- columns

  lemma FewerColumnsNormal(codes: map<Digest, Code>, grants: map<Id, Grant>,
                           codes': map<Digest, Code>, grants': map<Id, Grant>)
    requires ColumnsNormal(codes, grants)
    requires forall h :: h in codes' ==> h in codes && codes'[h].scopes == codes[h].scopes && codes'[h].forms == codes[h].forms
    requires forall g :: g in grants' ==> g in grants && grants'[g] == grants[g]
    ensures ColumnsNormal(codes', grants')
  {}

  lemma SpendColumns(db: Db, h: Digest)
    requires ColumnsNormal(db.codes, db.grants) && h in db.codes
    ensures ColumnsNormal(Spend(db, h).codes, Spend(db, h).grants)
  {
    FewerColumnsNormal(db.codes, db.grants, Spend(db, h).codes, db.grants);
  }

  lemma RevokeColumns(db: Db, gs: set<Id>)
    requires ColumnsNormal(db.codes, db.grants)
    ensures ColumnsNormal(RevokeGrants(db, gs).codes, RevokeGrants(db, gs).grants)
  {
    FewerColumnsNormal(db.codes, db.grants, db.codes, db.grants - gs);
  }

  lemma AddGrantColumns(db: Db, h: Digest, now: int)
    requires ColumnsNormal(db.codes, db.grants) && h in db.codes
    ensures ColumnsNormal(AddGrant(db, h, now).codes, AddGrant(db, h, now).grants)
  {}

  lemma IssueGrantColumns(db: Db, h: Digest, now: int)
    requires ColumnsNormal(db.codes, db.grants) && h in db.codes
    ensures ColumnsNormal(IssueGrant(db, h, now).codes, IssueGrant(db, h, now).grants)
  {
    var gs := GrantsBetween(db, db.codes[h].client, db.codes[h].user);
    RevokeColumns(db, gs);
    AddGrantColumns(RevokeGrants(db, gs), h, now);
  }

  lemma ExchangeColumns(db: Db, raw: nat, accepted: bool, now: int)
    requires ColumnsNormal(db.codes, db.grants)
    ensures var d := Exchange(db, raw, accepted, now).0; ColumnsNormal(d.codes, d.grants)
  {
    var h := HashToken(raw);
    if raw != 0 && h in db.codes {
      var c := db.codes[h];
      if c.used {
        RevokeColumns(db, {c.grant});
      } else if c.expires > now {
        SpendColumns(db, h);
        IssueGrantColumns(Spend(db, h), h, now);
      }
    }
  }

  // ---- every public operation keeps the invariant

  lemma CreateUserLinked(db: Db)
    requires Linked(db)
    ensures Linked(CreateUser(db))
  {}

  lemma CreateUserKeeps(db: Db)
    requires Inv(db)
    ensures Inv(CreateUser(db))
  {
    CreateUserLinked(db);
  }

  lemma DeleteUserKeeps(db: Db, user: Id)
    requires Inv(db)
    ensures Inv(DeleteUser(db, user))
  {
    var d := RemoveUser(db, user);
    RemoveUserLinked(db, user);
    FewerColumnsNormal(db.codes, db.grants, d.codes, d.grants);
  }

  lemma CreateClientLinked(db: Db, name: string, now: int)
    requires Linked(db)
    ensures Linked(CreateClient(db, name, now))
  {}

  lemma CreateClientKeeps(db: Db, name: string, now: int)
    requires Inv(db)
    ensures Inv(CreateClient(db, name, now))
  {
    CreateClientLinked(db, name, now);
  }

  lemma RemoveClientsKeeps(db: Db, cs: set<Id>)
    requires Inv(db) && cs <= Ungranted(db)
    ensures Inv(RemoveClients(db, cs))
  {
    var d := RemoveClients(db, cs);
    RemoveClientsLinked(db, cs);
    FewerColumnsNormal(db.codes, db.grants, d.codes, d.grants);
  }

  lemma CreateCodeLinked(db: Db, c: AuthCode, now: int)
    requires Linked(db)
    ensures Linked(CreateCode(db, c, now))
  {
    hide Column, TokensTied, TokensOwned, GrantsOwned, RefreshOwned, OneGrantPerPair, OneLiveRefresh;
  }

  lemma CreateCodeColumns(db: Db, c: AuthCode, now: int)
    requires ColumnsNormal(db.codes, db.grants)
    ensures ColumnsNormal(CreateCode(db, c, now).codes, CreateCode(db, c, now).grants)
  {
    StoredColumnIsStable(c.scopes);
    StoredColumnIsStable(c.forms);
  }

  lemma CreateCodeKeeps(db: Db, c: AuthCode, now: int)
    requires Inv(db)
    ensures Inv(CreateCode(db, c, now))
  {
    CreateCodeColumns(db, c, now);
    CreateCodeLinked(db, c, now);
  }

  lemma ExchangeKeeps(db: Db, raw: nat, accepted: bool, now: int)
    requires Inv(db)
    ensures Inv(Exchange(db, raw, accepted, now).0)
    ensures !Exchange(db, raw, accepted, now).1.Failed?
  {
    ExchangeLinked(db, raw, accepted, now);
    ExchangeColumns(db, raw, accepted, now);
  }

  lemma RefreshRows(db: Db, raw: nat, client: Id, now: int)
    ensures var d := RefreshGrant(db, raw, client, now).0;
            d.codes == db.codes &&
            forall g :: g in d.grants ==> g in db.grants && d.grants[g] == db.grants[g]
  {}

  lemma RefreshKeeps(db: Db, raw: nat, client: Id, now: int)
    requires Inv(db)
    ensures Inv(RefreshGrant(db, raw, client, now).0)
  {
    var d := RefreshGrant(db, raw, client, now).0;
    RefreshLinked(db, raw, client, now);
    RefreshRows(db, raw, client, now);
    FewerColumnsNormal(db.codes, db.grants, d.codes, d.grants);
  }

  lemma RevokeOAuthGrantKeeps(db: Db, user: Id, g: Id)
    requires Inv(db)
    ensures Inv(RevokeOAuthGrant(db, user, g))
  {
    if g in db.grants {
      RevokeLinked(db, {g});
      RevokeColumns(db, {g});
    }
  }

  lemma CleanedCodes(db: Db, codes: bool, refresh: bool, tokens: bool, clients: bool, now: int)
    ensures var d := Clean(db, codes, refresh, tokens, clients, now);
            forall h :: h in d.codes ==> h in db.codes && d.codes[h] == db.codes[h]
  {
    hide StaleClients, WithoutRefreshOf, GrantsOfClients;
  }

  lemma CleanKeeps(db: Db, codes: bool, refresh: bool, tokens: bool, clients: bool, now: int)
    requires Inv(db)
    ensures Inv(Clean(db, codes, refresh, tokens, clients, now))
  {
    hide Linked, Clean, ColumnsNormal;
    var d := Clean(db, codes, refresh, tokens, clients, now);
    CleanLinked(db, codes, refresh, tokens, clients, now);
    CleanedCodes(db, codes, refresh, tokens, clients, now);
    FewerColumnsNormal(db.codes, db.grants, d.codes, d.grants);
  }

  lemma CreateTokenKeeps(db: Db, user: Id, name: string, scopes: seq<string>, forms: seq<string>, ttl: int, now: int)
    requires Inv(db)
    ensures Inv(CreateToken(db, user, name, scopes, forms, ttl, now))
  {
    if user in db.users {
      InsertTokenLinked(db, user, name, scopes, forms, ttl, 0, now);
    }
  }

  lemma DeleteTokenLinked(db: Db, user: Id, id: Id)
    requires Linked(db)
    ensures Linked(DeleteToken(db, user, id))
  {}

  lemma DeleteTokenKeeps(db: Db, user: Id, id: Id)
    requires Inv(db)
    ensures Inv(DeleteToken(db, user, id))
  {
    DeleteTokenLinked(db, user, id);
  }
}
