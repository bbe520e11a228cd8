/** The two ways rows go without anyone asking: the hourly clean-up, which token users cannot
    observe, and the eviction that keeps open registration bounded. */
module OAuthHousekeeping {
  import opened Basics
  import opened Scopes
  import opened OAuthTables
  import opened OAuthInvariant
  import opened OAuthRuns

  // ---- the clean-up is unobservable

  predicate TokensAlike(a: map<Digest, Token>, b: map<Digest, Token>, t: int) {
    (forall h :: h in b ==> h in a && a[h] == b[h]) &&
    (forall h :: h in a && (a[h].grant == 0 || !Expired(a[h], t)) ==> h in b)
  }

  predicate RefreshAlike(a: map<Digest, Refresh>, b: map<Digest, Refresh>, t: int) {
    (forall h :: h in b ==> h in a && a[h] == b[h]) &&
    (forall h :: h in a && a[h].expires > t ==> h in b)
  }

  predicate ClientsAlike(a: map<Id, Client>, b: map<Id, Client>, grants: map<Id, Grant>) {
    (forall c :: c in b ==> c in a && a[c] == b[c]) &&
    (forall g :: g in grants ==> grants[g].client in b)
  }

  /** b is a with some rows missing that can no longer matter at time t or later. */
  predicate Alike(a: Db, b: Db, t: int) {
    a.next == b.next && a.users == b.users && a.grants == b.grants &&
    TokensAlike(a.tokens, b.tokens, t) && RefreshAlike(a.refresh, b.refresh, t) &&
    ClientsAlike(a.clients, b.clients, a.grants)
  }

  lemma CleanedRows(db: Db, c1: bool, c2: bool, c3: bool, c4: bool, now: int)
    ensures var d := Clean(db, c1, c2, c3, c4, now);
            d.next == db.next && d.users == db.users && TokensAlike(db.tokens, d.tokens, now) &&
            forall c :: c in d.clients ==> c in db.clients && d.clients[c] == db.clients[c]
  {}

  lemma PruningKeepsRefresh(db: Db, now: int)
    requires Linked(db)
    ensures CleanClients(db, now).refresh == db.refresh
  {
    RemoveClientsLinked(db, StaleClients(db, now));
  }

  lemma CleanedRefresh(db: Db, c1: bool, c2: bool, c3: bool, c4: bool, now: int)
    requires Linked(db)
    ensures Clean(db, c1, c2, c3, c4, now).refresh == if c2 then LiveRefresh(db.refresh, now) else db.refresh
  {
    hide Linked, CleanClients, LiveRefresh;
    var d1 := Either(c1, CleanCodes(db, now), db);
    CleanCodesLinked(db, now);
    var d2 := Either(c2, CleanRefresh(d1, now), d1);
    CleanRefreshLinked(d1, now);
    var d3 := Either(c3, CleanTokens(d2, now), d2);
    CleanTokensLinked(d2, now);
    PruningKeepsRefresh(d3, now);
  }

  lemma GrantedClients(db: Db)
    requires Linked(db)
    ensures forall g :: g in db.grants ==> db.grants[g].client in db.clients
  {}

  lemma CleanIsAlike(db: Db, c1: bool, c2: bool, c3: bool, c4: bool, now: int)
    requires Linked(db)
    ensures Alike(db, Clean(db, c1, c2, c3, c4, now), now)
  {
    hide Linked, Clean, TokensAlike;
    CleanLinked(db, c1, c2, c3, c4, now);
    CleanedRows(db, c1, c2, c3, c4, now);
    CleanedRefresh(db, c1, c2, c3, c4, now);
    GrantedClients(Clean(db, c1, c2, c3, c4, now));
  }

  /** Whatever a token user can ask is answered the same. */
  lemma AlikeAnswers(a: Db, b: Db, t: int, now: int, raw: nat, client: Id, user: Id)
    requires Alike(a, b, t) && t <= now
    ensures GetToken(a, raw, now) == GetToken(b, raw, now)
    ensures RefreshGrant(a, raw, client, now).1 == RefreshGrant(b, raw, client, now).1
    ensures ListGrants(a, user) == ListGrants(b, user)
    ensures ListTokens(a, user) == ListTokens(b, user)
  {
    AlikeListings(a, b, t, user);
    AlikeRotation(a, b, t, now, raw, client);
    hide ListGrants, ListTokens, OAuthTables.RefreshGrant, RefreshAlike, ClientsAlike;
  }

  lemma AlikeRotation(a: Db, b: Db, t: int, now: int, raw: nat, client: Id)
    requires Alike(a, b, t) && t <= now
    ensures RefreshGrant(a, raw, client, now).1 == RefreshGrant(b, raw, client, now).1
  {
    hide TokensAlike, Column, Entries, RevokeGrants;
    var h := HashToken(raw);
    if h in a.refresh && a.refresh[h].expires > now {
      assert h in b.refresh && b.refresh[h] == a.refresh[h];
    }
  }

  lemma AlikeListings(a: Db, b: Db, t: int, user: Id)
    requires Alike(a, b, t)
    ensures ListGrants(a, user) == ListGrants(b, user)
    ensures ListTokens(a, user) == ListTokens(b, user)
  {}

  lemma AlikeLater(a: Db, b: Db, t: int, now: int)
    requires Alike(a, b, t) && t <= now
    ensures Alike(a, b, now)
  {}

  lemma RevokeAlike(a: Db, b: Db, t: int, gs: set<Id>)
    requires Alike(a, b, t)
    ensures Alike(RevokeGrants(a, gs), RevokeGrants(b, gs), t)
  {}

  lemma TokenInsertedAlike(a: map<Digest, Token>, b: map<Digest, Token>, t: int, h: Digest, row: Token)
    requires TokensAlike(a, b, t)
    ensures TokensAlike(a[h := row], b[h := row], t)
  {}

  lemma RefreshInsertedAlike(a: map<Digest, Refresh>, b: map<Digest, Refresh>, t: int, h: Digest, row: Refresh)
    requires RefreshAlike(a, b, t)
    ensures RefreshAlike(a[h := row], b[h := row], t)
  {}

  lemma MintAlike(a: Db, b: Db, t: int, g: Id, now: int)
    requires Alike(a, b, t) && CanMint(a, g)
    ensures CanMint(b, g) && Alike(Mint(a, g, now).0, Mint(b, g, now).0, t)
  {
    var d := Mint(a, g, now).0;
    var h, k := HashToken(a.next), HashToken(a.next + 2);
    TokenInsertedAlike(a.tokens, b.tokens, t, h, d.tokens[h]);
    RefreshInsertedAlike(a.refresh, b.refresh, t, k, d.refresh[k]);
    hide Column, Entries, TokensAlike, RefreshAlike;
  }

  lemma SpendAlike(a: Db, b: Db, t: int, h: Digest)
    requires Alike(a, b, t) && h in a.refresh && h in b.refresh
    ensures Alike(SpendRefresh(a, h), SpendRefresh(b, h), t)
  {}

  lemma RotateAlike(a: Db, b: Db, t: int, raw: nat, client: Id)
    requires Alike(a, b, t)
    ensures Alike(RefreshGrant(a, raw, client, t).0, RefreshGrant(b, raw, client, t).0, t)
  {
    hide Mint, RevokeGrants;
    var h := HashToken(raw);
    if h in a.refresh && a.refresh[h].expires > t {
      RevokeAlike(a, b, t, {a.refresh[h].grant});
      SpendAlike(a, b, t, h);
      if CanMint(SpendRefresh(a, h), a.refresh[h].grant) {
        MintAlike(SpendRefresh(a, h), SpendRefresh(b, h), t, a.refresh[h].grant, t);
      }
    }
  }

  lemma RemoveAccountAlike(a: Db, b: Db, t: int, user: Id)
    requires Alike(a, b, t)
    ensures Alike(DeleteUser(a, user), DeleteUser(b, user), t)
  {
    AccountTokensAlike(a, b, t, user);
    AccountRefreshAlike(a, b, t, user);
    hide TokensAlike, RefreshAlike, WithoutRefreshOf;
  }

  lemma AccountTokensAlike(a: Db, b: Db, t: int, user: Id)
    requires TokensAlike(a.tokens, b.tokens, t)
    ensures TokensAlike(RemoveUser(a, user).tokens, RemoveUser(b, user).tokens, t)
  {}

  lemma AccountRefreshAlike(a: Db, b: Db, t: int, user: Id)
    requires RefreshAlike(a.refresh, b.refresh, t) && a.grants == b.grants
    ensures RefreshAlike(RemoveUser(a, user).refresh, RemoveUser(b, user).refresh, t)
  {}

  lemma OwnerStepsAlike(a: Db, b: Db, t: int, user: Id, id: Id, name: string)
    requires Alike(a, b, t)
    ensures Alike(CreateUser(a), CreateUser(b), t)
    ensures Alike(CreateClient(a, name, t), CreateClient(b, name, t), t)
    ensures Alike(DeleteToken(a, user, id), DeleteToken(b, user, id), t)
  {}

  lemma CreateTokenAlike(a: Db, b: Db, t: int, user: Id, name: string, scopes: seq<string>, forms: seq<string>, ttl: int)
    requires Alike(a, b, t)
    ensures Alike(CreateToken(a, user, name, scopes, forms, ttl, t), CreateToken(b, user, name, scopes, forms, ttl, t), t)
  {
    hide Column, TokensAlike, RefreshAlike;
    if user in a.users {
      var h := HashToken(a.next);
      TokenInsertedAlike(a.tokens, b.tokens, t, h, InsertToken(a, user, name, scopes, forms, ttl, 0, t).tokens[h]);
    }
  }

  /** The steps of people and clients who already hold tokens, and of the operator. */
  predicate ByTokenUser(op: Op) {
    op.Rotate? || op.Disconnect? || op.MintByHand? || op.RevokeByHand? || op.RemoveAccount? || op.AddUser? || op.Register?
  }

  lemma StepAlike(a: Db, b: Db, t: int, e: Event)
    requires Alike(a, b, t) && t <= e.now && ByTokenUser(e.op)
    ensures Alike(Apply(a, e), Apply(b, e), e.now)
  {
    AlikeLater(a, b, t, e.now);
    StepAlikeNow(a, b, e);
  }

  lemma StepAlikeNow(a: Db, b: Db, e: Event)
    requires Alike(a, b, e.now) && ByTokenUser(e.op)
    ensures Alike(Apply(a, e), Apply(b, e), e.now)
  {
    hide TokensAlike, RefreshAlike, ClientsAlike, OAuthTables.RefreshGrant, CreateToken, DeleteToken, DeleteUser, CreateUser,
         CreateClient, RevokeGrants;
    match e.op
    case Rotate(refresh, client) => RotateAlike(a, b, e.now, refresh, client);
    case Disconnect(user, grant) => RevokeAlike(a, b, e.now, {grant});
    case MintByHand(user, name, scopes, forms, ttl) => CreateTokenAlike(a, b, e.now, user, name, scopes, forms, ttl);
    case RevokeByHand(user, id) => OwnerStepsAlike(a, b, e.now, user, id, []);
    case RemoveAccount(user) => RemoveAccountAlike(a, b, e.now, user);
    case AddUser => OwnerStepsAlike(a, b, e.now, 0, 0, []);
    case Register(name) => OwnerStepsAlike(a, b, e.now, 0, 0, name);
  }

  /** Steps of token users only, at times that never go back, all at start or later. */
  predicate TokenUserRun(run: seq<Event>, start: int) {
    forall i :: 0 <= i < |run| ==>
      ByTokenUser(run[i].op) && start <= run[i].now && forall j :: 0 <= j < i ==> run[j].now <= run[i].now
  }

  lemma {:induction false} RunAlike(a: Db, b: Db, t: int, run: seq<Event>) returns (end: int)
    requires Alike(a, b, t) && TokenUserRun(run, t)
    ensures Alike(After(a, run), After(b, run), end)
    ensures end == if run == [] then t else run[|run| - 1].now
  {
    hide Alike, Apply;
    if run == [] {
      end := t;
    } else {
      var n := |run| - 1;
      end := RunAlike(a, b, t, run[..n]);
      assert n > 0 ==> run[..n][n - 1] == run[n - 1];
      StepAlike(After(a, run[..n]), After(b, run[..n]), end, run[n]);
      end := run[n].now;
    }
  }

  /** CleanExpiredOAuth, with any subset of its statements succeeding, cannot be told from doing
      nothing: after any further steps of token users, every token lookup, refresh and listing is
      answered as if it had not run. */
  lemma CleanIsUnobservable(db: Db, c1: bool, c2: bool, c3: bool, c4: bool, swept: int,
                            run: seq<Event>, now: int, raw: nat, client: Id, user: Id)
    requires Inv(db) && TokenUserRun(run, swept) && swept <= now
    requires forall i :: 0 <= i < |run| ==> run[i].now <= now
    ensures var a, b := After(db, run), After(Clean(db, c1, c2, c3, c4, swept), run);
            GetToken(a, raw, now) == GetToken(b, raw, now) &&
            RefreshGrant(a, raw, client, now).1 == RefreshGrant(b, raw, client, now).1 &&
            ListGrants(a, user) == ListGrants(b, user) &&
            ListTokens(a, user) == ListTokens(b, user)
  {
    hide Linked, Clean, Alike, GetToken, RefreshGrant, ListGrants, ListTokens;
    CleanIsAlike(db, c1, c2, c3, c4, swept);
    var end := RunAlike(db, Clean(db, c1, c2, c3, c4, swept), swept, run);
    AlikeAnswers(After(db, run), After(Clean(db, c1, c2, c3, c4, swept), run), end, now, raw, client, user);
  }

  // ---- eviction

  function Ahead(s: set<Id>, clients: map<Id, Client>, c: Id): set<Id>
    requires s <= clients.Keys && c in clients
  {
    set o | o in s && NewerRow(clients, o, c)
  }

  /** The first k in newest-first order. */
  function Newest(s: set<Id>, clients: map<Id, Client>, k: int): set<Id>
    requires s <= clients.Keys
  {
    set c | c in s && |Ahead(s, clients, c)| < k
  }

  lemma {:induction false} OldestExists(s: set<Id>, clients: map<Id, Client>) returns (x: Id)
    requires s != {} && s <= clients.Keys
    ensures x in s && forall c :: c in s && c != x ==> NewerRow(clients, c, x)
  {
    var y :| y in s;
    if s == {y} {
      x := y;
    } else {
      var z := OldestExists(s - {y}, clients);
      x := if NewerRow(clients, y, z) then z else y;
      forall c | c in s && c != x
        ensures NewerRow(clients, c, x)
      {
        assert c == y || c == z || (c in s - {y} && NewerRow(clients, c, z));
      }
    }
  }

  lemma {:induction false} NewestCount(s: set<Id>, clients: map<Id, Client>, k: int)
    requires s <= clients.Keys
    ensures |Newest(s, clients, k)| == if k < 0 then 0 else if k < |s| then k else |s|
  {
    if s != {} {
      var x := OldestExists(s, clients);
      var rest := s - {x};
      NewestCount(rest, clients, k);
      assert Ahead(s, clients, x) == rest;
      forall c | c in rest
        ensures Ahead(s, clients, c) == Ahead(rest, clients, c)
      {}
      if |rest| < k {
        assert Newest(s, clients, k) == Newest(rest, clients, k) + {x};
      } else {
        assert Newest(s, clients, k) == Newest(rest, clients, k);
      }
    } else {
      assert Newest(s, clients, k) == {};
    }
  }

  lemma AheadGrows(s: set<Id>, clients: map<Id, Client>, older: Id, newer: Id)
    requires s <= clients.Keys && older in clients && newer in s && NewerRow(clients, newer, older)
    ensures |Ahead(s, clients, newer)| < |Ahead(s, clients, older)|
  {
    assert Ahead(s, clients, newer) + {newer} <= Ahead(s, clients, older);
    SubsetSize(Ahead(s, clients, newer) + {newer}, Ahead(s, clients, older));
  }

  /** MakeRoomForOAuthClient keeps exactly the newest max-1 clients without a grant, or all of them
      when there are fewer; what goes is older than everything that stays, and no grant, token or
      granted client goes with it. */
  lemma EvictionKeepsTheNewest(db: Db, max: int)
    requires Linked(db)
    ensures var d, k := MakeRoom(db, max), max - 1;
            Ungranted(d) == Ungranted(db) - Evicted(db, max) &&
            |Ungranted(d)| == (if k < 0 then 0 else if k < |Ungranted(db)| then k else |Ungranted(db)|) &&
            d.grants == db.grants && d.tokens == db.tokens && d.refresh == db.refresh
    ensures forall kept, gone :: kept in Ungranted(MakeRoom(db, max)) && gone in Evicted(db, max) ==>
              NewerRow(db.clients, kept, gone)
  {
    hide Linked;
    var u := Ungranted(db);
    var kept := u - Evicted(db, max);
    RemoveClientsLinked(db, Evicted(db, max));
    forall c | c in u ensures NewerUngranted(db, c) == Ahead(u, db.clients, c) {}
    assert kept == Newest(u, db.clients, max - 1);
    NewestCount(u, db.clients, max - 1);
    assert Ungranted(MakeRoom(db, max)) == kept;
    forall k, g | k in kept && g in Evicted(db, max)
      ensures NewerRow(db.clients, k, g)
    {
      if NewerRow(db.clients, g, k) {
        AheadGrows(u, db.clients, k, g);
      }
    }
  }
}
