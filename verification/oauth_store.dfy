/** The store's OAuth and token functions, statement by statement.

    Any statement, row count or commit may fail, at Attempt's whim. A transaction works on the
    tables in place and puts them back when it gives up, as the deferred Rollback does; it holds the
    write lock from BEGIN (_txlock=immediate), so nothing interleaves with it. Randomness is the
    counter next, the clock is the parameter now. */
module OAuthStore {
  import opened Basics
  import opened Scopes
  import opened OAuthTables
  import opened OAuthInvariant
  import opened OAuthHistory

  class Store {
    var next: nat
    var users: set<Id>
    var clients: map<Id, Client>
    var codes: map<Digest, Code>
    var grants: map<Id, Grant>
    var refresh: map<Digest, Refresh>
    var tokens: map<Digest, Token>

    function State(): Db
      reads this
    {
      Db(next, users, clients, codes, grants, refresh, tokens)
    }

    /** A new instance: the schema and one seeded account. */
    constructor ()
      ensures Inv(State())
      ensures NothingIssued(State()) && State().clients == map[] && |State().users| == 1
    {
      next, users, clients := 2, {1}, map[];
      codes, grants, refresh, tokens := map[], map[], map[], map[];
    }

    /** Write a whole set of tables: a rollback, or one statement with its cascades. */
    method Put(saved: Db)
      modifies this
      ensures State() == saved
    {
      next, users, clients, codes := saved.next, saved.users, saved.clients, saved.codes;
      grants, refresh, tokens := saved.grants, saved.refresh, saved.tokens;
    }

    /** Two statements; the refresh tokens follow the grant by foreign key. */
    method RevokeGrant(g: Id) returns (ok: bool)
      modifies this
      ensures ok ==> State() == RevokeGrants(old(State()), {g})
    {
      ok := Attempt();
      if ok {
        tokens := WithoutTokensOf(tokens, {g});
        ok := Attempt();
        if ok {
          grants := grants - {g};
          refresh := WithoutRefreshOf(refresh, {g});
        }
      }
    }

    /** Reads the ids first and then revokes one grant at a time. */
    method ReplaceGrants(client: Id, user: Id) returns (ok: bool)
      modifies this
      ensures ok ==> State() == RevokeGrants(old(State()), GrantsBetween(old(State()), client, user))
    {
      hide RevokeGrants, GrantsBetween;
      var before := State();
      ok := Attempt();
      if !ok { return; }
      var ids := GrantsBetween(before, client, user);
      RevokingNothing(before);
      var done: set<Id> := {};
      while done != ids
        invariant done <= ids
        invariant State() == RevokeGrants(before, done)
        decreases ids - done
      {
        assert ids == done + (ids - done);
        var g :| g in ids - done;
        ok := RevokeGrant(g);
        if !ok { return; }
        RevokingOneMore(before, done, g);
        done := done + {g};
      }
      ok := true;
    }

    method InsertAPIToken(user: Id, name: string, scopes: seq<string>, forms: seq<string>, ttl: int,
                          grant: Id, now: int) returns (ok: bool, raw: nat, ghost fault: bool)
      modifies this
      ensures ok <==> !fault && user != 0 && user in old(users)
      ensures ok ==> user in old(users) && raw == old(next) &&
                     State() == InsertToken(old(State()), user, name, scopes, forms, ttl, grant, now)
    {
      raw, fault := next, false;
      if user == 0 { return false, 0, false; }
      var scopeColumn := JoinScopes(scopes);
      var formColumn := JoinScopes(forms);
      var expires := if ttl == 0 then Never else At(now + ttl);
      var stored := Attempt();
      fault := !stored;
      // The foreign key refuses a token for an account that is not there.
      ok := stored && user in users;
      if ok {
        tokens := tokens[HashToken(next) := Token(next + 1, user, name, scopeColumn, formColumn, now, expires, grant)];
        next := next + 2;
      }
    }

    method MintTokens(g: Id, now: int) returns (ok: bool, pair: TokenPair)
      modifies this
      ensures ok ==> CanMint(old(State()), g) && (State(), pair) == Mint(old(State()), g, now)
    {
      hide Column, Entries;
      pair := TokenPair(0, 0, 0, 0, []);
      ok := Attempt();
      if !ok || g !in grants || grants[g].client !in clients { return false, pair; }
      var row, name := grants[g], clients[grants[g].client].name;
      var scopes := SplitScopes(row.scopes);
      var forms := SplitScopes(row.forms);
      var access;
      ghost var fault;
      ok, access, fault := InsertAPIToken(row.user, name, scopes, forms, ACCESS_TOKEN_TTL, g, now);
      if !ok { return; }
      var secret := next;
      ok := Attempt();
      if !ok { return; }
      refresh := refresh[HashToken(secret) := Refresh(g, now + REFRESH_TOKEN_TTL, false)];
      next := next + 1;
      pair := TokenPair(g, access, secret, ACCESS_TOKEN_TTL, scopes);
    }

    /** replayed: revoke what the credential issued, and say so if that could not be done. */
    method RevokeReplayed(saved: Db, g: Id) returns (answer: Outcome)
      requires State() == saved
      modifies this
      ensures (answer.Reused? && State() == Replayed(saved, g)) || (answer.RevokeFailed? && State() == saved)
    {
      if g == 0 { return Reused; }
      var ok := RevokeGrant(g);
      if ok {
        ok := Attempt();
      }
      if !ok {
        Put(saved);
        return RevokeFailed;
      }
      answer := Reused;
    }

    /** Replace any earlier grant of the pair, then write the grant and its first tokens. */
    method IssueFromCode(hash: Digest, now: int) returns (ok: bool, pair: TokenPair)
      requires hash in codes
      modifies this
      ensures ok ==> CanMint(IssueGrant(old(State()), hash, now), old(next))
      ensures ok ==> (State(), pair) == Mint(IssueGrant(old(State()), hash, now), old(next), now)
    {
      hide Mint, RevokeGrants, CanMint;
      var before := State();
      var c := codes[hash];
      pair := TokenPair(0, 0, 0, 0, []);
      ok := ReplaceGrants(c.client, c.user);
      if !ok { return; }
      RevokingKeepsCodes(before, GrantsBetween(before, c.client, c.user));
      var cleared := State();
      ok := Attempt();
      // Both foreign keys of the new row are checked here.
      if !ok || c.client !in clients || c.user !in users { return false, pair; }
      var g := next;
      grants := grants[g := Grant(c.client, c.user, c.redirect, c.scopes, c.forms, now)];
      next := next + 1;
      ok := Attempt();
      if !ok { return; }
      codes := codes[hash := c.(grant := g)];
      assert State() == AddGrant(cleared, hash, now);
      assert State() == IssueGrant(before, hash, now);
      ok, pair := MintTokens(g, now);
    }

    method ExchangeAuthCode(raw: nat, accept: AuthCode -> bool, now: int) returns (answer: Outcome, ghost fault: Fault)
      requires Inv(State())
      modifies this
      ensures Inv(State())
      ensures (State(), answer) == Under(old(State()),
                Exchange(old(State()), raw, HashToken(raw) in old(codes) && accept(Consent(old(codes)[HashToken(raw)])), now), fault)
      ensures answer.Reused? && HashToken(raw) in old(codes) && old(codes)[HashToken(raw)].grant != 0 ==>
                GrantGone(State(), old(codes)[HashToken(raw)].grant)
    {
      hide Inv, IssueGrant, Mint, RevokeGrants, CanMint, Consent, GrantGone;
      var saved := State();
      var hash := HashToken(raw);
      ghost var accepted := hash in codes && accept(Consent(codes[hash]));
      ExchangeKeeps(saved, raw, accepted, now);
      fault := NoFault;
      if raw == 0 { return NotFound, fault; }
      var ok := Attempt();
      if !ok { return Failed, Start; }
      if hash !in codes { return NotFound, fault; }
      var c := codes[hash];
      if c.used {
        RevokeRemovesOne(saved, c.grant);
        answer := RevokeReplayed(saved, c.grant);
        fault := if answer.RevokeFailed? then Later else NoFault;
        return;
      }
      UnspentIssuedNothing(saved, hash);
      if c.expires <= now { return NotFound, fault; }
      ok := Attempt();
      if !ok { return Failed, Mark; }
      var n := if codes[hash].used then 0 else 1;
      // The code also refuses when n is not one; under the write lock it is.
      assert n == 1;
      codes := codes[hash := c.(used := true)];
      ok := Attempt();
      if !ok || n != 1 {
        Put(saved);
        return Reused, Counting;
      }
      if !accept(Consent(c)) {
        ok := Attempt();
        if !ok {
          Put(saved);
          return Failed, Later;
        }
        return Rejected, fault;
      }
      var pair;
      ok, pair := IssueFromCode(hash, now);
      if ok {
        ok := Attempt();
      }
      if !ok {
        Put(saved);
        return Failed, Later;
      }
      OwnersExist(saved, hash);
      answer := Issued(pair);
    }

    /** The last clause is the exact meaning of "already used": the grant is gone if and only if the
        token really was spent before. When only the row count could not be read, the same error is
        returned with nothing revoked. */
    method RefreshGrant(raw: nat, client: Id, now: int) returns (answer: Outcome, ghost fault: Fault)
      requires Inv(State())
      modifies this
      ensures Inv(State())
      ensures (State(), answer) == Under(old(State()), OAuthTables.RefreshGrant(old(State()), raw, client, now), fault)
      ensures HashToken(raw) in old(refresh) && old(refresh)[HashToken(raw)].grant in old(grants) &&
              old(grants)[old(refresh)[HashToken(raw)].grant].client != client ==>
                State() == old(State()) && (answer.NotFound? || answer.Failed?)
      ensures answer.Reused? ==>
                HashToken(raw) in old(refresh) &&
                (GrantGone(State(), old(refresh)[HashToken(raw)].grant) <==> old(refresh)[HashToken(raw)].used)
    {
      hide Inv, Mint, RevokeGrants, Normal;
      var saved := State();
      var hash := HashToken(raw);
      RefreshKeeps(saved, raw, client, now);
      fault := NoFault;
      if raw == 0 { return NotFound, fault; }
      var ok := Attempt();
      if !ok { return Failed, Start; }
      if hash !in refresh || refresh[hash].expires <= now || refresh[hash].grant !in grants { return NotFound, fault; }
      var r := refresh[hash];
      if grants[r.grant].client != client { return NotFound, fault; }
      KeysBelowNext(saved);
      GrantOwnersExist(saved, r.grant);
      if r.used {
        RevokeRemovesOne(saved, r.grant);
        answer := RevokeReplayed(saved, r.grant);
        fault := if answer.RevokeFailed? then Later else NoFault;
        return;
      }
      ok := Attempt();
      if !ok { return Failed, Mark; }
      var n := if refresh[hash].used then 0 else 1;
      // The code also refuses when n is not one; under the write lock it is.
      assert n == 1;
      refresh := refresh[hash := r.(used := true)];
      ok := Attempt();
      if !ok || n != 1 {
        Put(saved);
        return Reused, Counting;
      }
      var pair;
      ok, pair := MintTokens(r.grant, now);
      if ok {
        ok := Attempt();
      }
      if !ok {
        Put(saved);
        return Failed, Later;
      }
      answer := Issued(pair);
    }

    method RevokeOAuthGrant(user: Id, g: Id) returns (ok: bool, gone: bool)
      requires Inv(State())
      modifies this
      ensures Inv(State())
      ensures ok ==> State() == OAuthTables.RevokeOAuthGrant(old(State()), user, g) &&
                     (gone <==> g in old(grants) && old(grants)[g].user == user) &&
                     (gone ==> GrantGone(State(), g))
      ensures !ok ==> State() == old(State()) && !gone
    {
      hide Inv, RevokeGrants, GrantGone;
      var saved := State();
      gone := false;
      RevokeOAuthGrantKeeps(saved, user, g);
      RevokeRemovesOne(saved, g);
      ok := Attempt();
      if !ok || g !in grants || grants[g].user != user { return; }
      ok := RevokeGrant(g);
      if ok {
        ok := Attempt();
      }
      if !ok {
        Put(saved);
        return;
      }
      gone := true;
    }

    /** One DELETE over a subquery, committed on its own: it has gone even when its count cannot be
        read. */
    method MakeRoomForOAuthClient(max: int) returns (ok: bool, n: nat, ghost went: bool)
      requires Inv(State())
      modifies this
      ensures Inv(State())
      ensures State() == if went then MakeRoom(old(State()), max) else old(State())
      ensures ok ==> went && n == |Evicted(old(State()), max)|
    {
      hide Inv, RemoveClients;
      n, went := 0, false;
      ok := Attempt();
      if !ok { return; }
      RemoveClientsKeeps(State(), Evicted(State(), max));
      var gone := Evicted(State(), max);
      var d := RemoveClients(State(), gone);
      Put(d);
      went := true;
      ok := Attempt();
      if ok { n := |gone|; }
    }

    /** A failed statement keeps none of the others from running; failed says whether any did. */
    method CleanExpiredOAuth(now: int) returns (failed: bool, c1: bool, c2: bool, c3: bool, c4: bool)
      requires Inv(State())
      modifies this
      ensures Inv(State())
      ensures State() == Clean(old(State()), c1, c2, c3, c4, now)
      ensures failed <==> !(c1 && c2 && c3 && c4)
    {
      hide Inv, CleanCodes, CleanRefresh, CleanTokens, CleanClients;
      var before := State();
      c1 := Attempt();
      if c1 {
        var d := CleanCodes(State(), now);
        Put(d);
      }
      c2 := Attempt();
      if c2 {
        var d := CleanRefresh(State(), now);
        Put(d);
      }
      c3 := Attempt();
      if c3 {
        var d := CleanTokens(State(), now);
        Put(d);
      }
      c4 := Attempt();
      if c4 {
        var d := CleanClients(State(), now);
        Put(d);
      }
      CleanKeeps(before, c1, c2, c3, c4, now);
      failed := !(c1 && c2 && c3 && c4);
    }

    method CreateOAuthClient(name: string, now: int) returns (ok: bool, id: Id)
      requires Inv(State())
      modifies this
      ensures Inv(State())
      ensures ok ==> id == old(next) && State() == CreateClient(old(State()), name, now)
      ensures !ok ==> State() == old(State())
    {
      hide Inv;
      id := next;
      CreateClientKeeps(State(), name, now);
      ok := Attempt();
      if ok {
        clients := clients[id := Client(name, now)];
        next := next + 1;
      }
    }

    method CreateAuthCode(c: AuthCode, now: int) returns (ok: bool, raw: nat, ghost fault: bool)
      requires Inv(State())
      modifies this
      ensures Inv(State())
      ensures ok <==> !fault && c.client in old(clients) && c.user in old(users)
      ensures ok ==> raw == old(next) && HashToken(raw) in codes && HashToken(raw) !in old(codes) &&
                     State() == CreateCode(old(State()), c, now)
      ensures !ok ==> State() == old(State())
    {
      hide Inv, Column;
      raw := next;
      KeysBelowNext(State());
      CreateCodeKeeps(State(), c, now);
      var scopes := JoinScopes(c.scopes);
      var forms := JoinScopes(c.forms);
      var stored := Attempt();
      fault := !stored;
      ok := stored && c.client in clients && c.user in users;
      if ok {
        codes := codes[HashToken(raw) :=
          Code(c.client, c.user, c.redirect, c.challenge, c.resource, scopes, forms, now + AUTH_CODE_TTL, false, 0)];
        next := next + 1;
      }
    }

    method CreateAPIToken(user: Id, name: string, scopes: seq<string>, forms: seq<string>, ttl: int, now: int)
      returns (ok: bool, raw: nat, ghost fault: bool)
      requires Inv(State())
      modifies this
      ensures Inv(State())
      ensures ok <==> !fault && user != 0 && user in old(users)
      ensures ok ==> raw == old(next) && State() == CreateToken(old(State()), user, name, scopes, forms, ttl, now)
      ensures !ok ==> State() == old(State())
    {
      hide Inv, Column;
      var saved := State();
      CreateTokenKeeps(saved, user, name, scopes, forms, ttl, now);
      NoBlankUser(saved);
      ok, raw, fault := InsertAPIToken(user, name, scopes, forms, ttl, 0, now);
      if !ok {
        Put(saved);
      }
    }

    /** One DELETE, as above. */
    method DeleteAPIToken(user: Id, id: Id) returns (ok: bool, gone: bool, ghost went: bool)
      requires Inv(State())
      modifies this
      ensures Inv(State())
      ensures State() == if went then DeleteToken(old(State()), user, id) else old(State())
      ensures ok ==> went && (gone <==> exists h :: h in old(tokens) && old(tokens)[h].user == user && old(tokens)[h].id == id)
    {
      hide Inv;
      DeleteTokenKeeps(State(), user, id);
      gone, went := false, false;
      ok := Attempt();
      if !ok { return; }
      var any := exists h :: h in tokens && tokens[h].user == user && tokens[h].id == id;
      tokens := DeleteToken(State(), user, id).tokens;
      went := true;
      ok := Attempt();
      gone := ok && any;
    }

    method GetAPIToken(raw: nat, now: int) returns (ok: bool, found: Option<Token>)
      ensures ok ==> found == GetToken(State(), raw, now)
    {
      found := None;
      if raw == 0 { return true, None; }
      ok := Attempt();
      if ok && HashToken(raw) in tokens && (tokens[HashToken(raw)].expires.Never? || tokens[HashToken(raw)].expires.time > now) {
        found := Some(tokens[HashToken(raw)]);
      }
    }

    method DeleteUser(user: Id) returns (ok: bool, ghost fault: bool)
      requires Inv(State())
      modifies this
      ensures Inv(State())
      ensures ok <==> !fault && |old(users)| > 1 && user in old(users)
      ensures ok ==> |old(users)| > 1 && user in old(users) && State() == OAuthTables.DeleteUser(old(State()), user)
      ensures !ok ==> State() == old(State())
    {
      hide Inv, RemoveUser;
      DeleteUserKeeps(State(), user);
      ok := Attempt();
      fault := !ok;
      if !ok || |users| <= 1 { return false, fault; }
      var n := if user in users then 1 else 0;
      var d := if n == 1 then RemoveUser(State(), user) else State();
      ok := Attempt();
      fault := !ok;
      ok := ok && n == 1;
      if ok {
        Put(d);
      }
    }
  }

  lemma RevokingKeepsCodes(db: Db, gs: set<Id>)
    ensures RevokeGrants(db, gs).codes == db.codes && RevokeGrants(db, gs).next == db.next
  {}

  lemma UnspentIssuedNothing(db: Db, h: Digest)
    requires Inv(db) && h in db.codes && !db.codes[h].used
    ensures db.codes[h].grant == 0
  {
    assert Issuer(db.codes[h], db.grants, db.next);
  }

  lemma GrantOwnersExist(db: Db, g: Id)
    requires Inv(db) && g in db.grants
    ensures db.grants[g].client in db.clients && db.grants[g].user in db.users
  {}

  lemma NoBlankUser(db: Db)
    requires Inv(db)
    ensures 0 !in db.users
  {}

  lemma OwnersExist(db: Db, h: Digest)
    requires Inv(db) && h in db.codes
    ensures db.codes[h].client in db.clients && db.codes[h].user in db.users
  {}

  lemma RevokingNothing(db: Db)
    ensures RevokeGrants(db, {}) == db
  {
    assert WithoutTokensOf(db.tokens, {}) == db.tokens;
    assert WithoutRefreshOf(db.refresh, {}) == db.refresh;
    assert db.grants - {} == db.grants;
  }

  lemma RevokingOneMore(db: Db, gs: set<Id>, g: Id)
    ensures RevokeGrants(RevokeGrants(db, gs), {g}) == RevokeGrants(db, gs + {g})
  {
    assert WithoutTokensOf(WithoutTokensOf(db.tokens, gs), {g}) == WithoutTokensOf(db.tokens, gs + {g});
    assert WithoutRefreshOf(WithoutRefreshOf(db.refresh, gs), {g}) == WithoutRefreshOf(db.refresh, gs + {g});
    assert (db.grants - gs) - {g} == db.grants - (gs + {g});
  }

  /** Under any fault, the answer "already used" to a refresh token leaves its grant gone exactly if the
      token had been spent before. Otherwise it was the row count that could not be read, nothing
      changed, and the token would still be rotated. */
  lemma ReusedMeansADeadGrantExactlyWhen(db: Db, raw: nat, client: Id, now: int, fault: Fault)
    requires Inv(db) && Under(db, OAuthTables.RefreshGrant(db, raw, client, now), fault).1.Reused?
    ensures var after, h := Under(db, OAuthTables.RefreshGrant(db, raw, client, now), fault).0, HashToken(raw);
            h in db.refresh &&
            (GrantGone(after, db.refresh[h].grant) <==> db.refresh[h].used) &&
            (!db.refresh[h].used ==>
               fault == Counting && after == db && OAuthTables.RefreshGrant(db, raw, client, now).1.Issued?)
  {
    hide Mint, Normal;
    var h := HashToken(raw);
    if h in db.refresh && db.refresh[h].grant in db.grants {
      KeysBelowNext(db);
      RevokeRemovesOne(db, db.refresh[h].grant);
    }
    hide Inv;
  }

  /** And every token that can be rotated can get that answer: the spent mark lands, its row count
      cannot be read, and the rollback leaves grant and token alive. */
  lemma ALiveTokenCanBeCalledUsed(db: Db, raw: nat, client: Id, now: int)
    requires Inv(db) && OAuthTables.RefreshGrant(db, raw, client, now).1.Issued?
    ensures Under(db, OAuthTables.RefreshGrant(db, raw, client, now), Counting) == (db, Reused)
    ensures var h := HashToken(raw); h in db.refresh && !db.refresh[h].used && !GrantGone(db, db.refresh[h].grant)
  {
    hide Mint, Inv, Normal;
  }
}
