/** Whole runs of the authorization server: any sequence of its operations, from any number of
    clients, users and holders of stolen secrets. A transaction that fails rolls back and so is
    no step at all. */
module OAuthRuns {
  import opened OAuthTables
  import opened OAuthInvariant

  datatype Op =
    | AddUser
    | RemoveAccount(user: Id)
    | Register(name: string)
    | Evict(max: int)
    | Approve(consent: AuthCode)
    | Redeem(code: nat, accepted: bool)
    | Rotate(refresh: nat, client: Id)
    | Disconnect(user: Id, grant: Id)
    | Sweep(c1: bool, c2: bool, c3: bool, c4: bool)
    | MintByHand(user: Id, name: string, scopes: seq<string>, forms: seq<string>, ttl: int)
    | RevokeByHand(user: Id, id: Id)

  datatype Event = Event(op: Op, now: int)

  function Apply(db: Db, e: Event): Db {
    match e.op
    case AddUser => CreateUser(db)
    case RemoveAccount(user) => DeleteUser(db, user)
    case Register(name) => CreateClient(db, name, e.now)
    case Evict(max) => MakeRoom(db, max)
    case Approve(consent) => CreateCode(db, consent, e.now)
    case Redeem(code, accepted) => Exchange(db, code, accepted, e.now).0
    case Rotate(refresh, client) => RefreshGrant(db, refresh, client, e.now).0
    case Disconnect(user, grant) => RevokeOAuthGrant(db, user, grant)
    case Sweep(codes, refresh, tokens, clients) => Clean(db, codes, refresh, tokens, clients, e.now)
    case MintByHand(user, name, scopes, forms, ttl) => CreateToken(db, user, name, scopes, forms, ttl, e.now)
    case RevokeByHand(user, id) => DeleteToken(db, user, id)
  }

  function After(db: Db, run: seq<Event>): Db {
    if run == [] then db else Apply(After(db, run[..|run| - 1]), run[|run| - 1])
  }

  // ---- the invariant over runs

  lemma StepKeepsInv(db: Db, e: Event)
    requires Inv(db)
    ensures Inv(Apply(db, e))
  {
    hide Inv;
    match e.op
    case AddUser => CreateUserKeeps(db);
    case RemoveAccount(user) => DeleteUserKeeps(db, user);
    case Register(name) => CreateClientKeeps(db, name, e.now);
    case Evict(max) => RemoveClientsKeeps(db, Evicted(db, max));
    case Approve(consent) => CreateCodeKeeps(db, consent, e.now);
    case Redeem(code, accepted) => ExchangeKeeps(db, code, accepted, e.now);
    case Rotate(refresh, client) => RefreshKeeps(db, refresh, client, e.now);
    case Disconnect(user, grant) => RevokeOAuthGrantKeeps(db, user, grant);
    case Sweep(c1, c2, c3, c4) => CleanKeeps(db, c1, c2, c3, c4, e.now);
    case MintByHand(user, name, scopes, forms, ttl) => CreateTokenKeeps(db, user, name, scopes, forms, ttl, e.now);
    case RevokeByHand(user, id) => DeleteTokenKeeps(db, user, id);
  }

  /** Every reachable state satisfies the invariant: access tokens are tied to live grants of the
      same user with the consented columns, one grant per client and user, one unspent refresh
      token per grant. */
  lemma {:induction false} InvariantOverRuns(db: Db, run: seq<Event>)
    requires Inv(db)
    ensures Inv(After(db, run))
  {
    if run != [] {
      InvariantOverRuns(db, run[..|run| - 1]);
      StepKeepsInv(After(db, run[..|run| - 1]), run[|run| - 1]);
    }
  }

  // ---- what can change in a step

  /** A code's consent never changes, and once it is spent nothing about it does. */
  predicate SameConsent(a: Code, b: Code) {
    a.client == b.client && a.user == b.user && a.redirect == b.redirect && a.challenge == b.challenge &&
    a.resource == b.resource && a.scopes == b.scopes && a.forms == b.forms && a.expires == b.expires &&
    (a.used ==> a == b)
  }

  predicate CodesEvolve(a: map<Digest, Code>, b: map<Digest, Code>, next: nat) {
    forall h :: h in b ==> (h in a && SameConsent(a[h], b[h])) || next <= h.of
  }

  predicate GrantsEvolve(a: map<Id, Grant>, b: map<Id, Grant>, next: nat) {
    forall g :: g in b ==> (g in a && a[g] == b[g]) || next <= g
  }

  predicate TokensEvolve(a: map<Digest, Token>, b: map<Digest, Token>, next: nat) {
    forall h :: h in b ==> (h in a && a[h] == b[h]) || next <= h.of
  }

  predicate RefreshEvolve(a: map<Digest, Refresh>, b: map<Digest, Refresh>, next: nat) {
    forall h :: h in b ==>
      (h in a && a[h].grant == b[h].grant && a[h].expires == b[h].expires && (a[h].used ==> b[h].used)) || next <= h.of
  }

  /** Rows appear only under fresh keys; grants and tokens are never rewritten. */
  predicate Evolves(a: Db, b: Db) {
    a.next <= b.next && CodesEvolve(a.codes, b.codes, a.next) && GrantsEvolve(a.grants, b.grants, a.next) &&
    TokensEvolve(a.tokens, b.tokens, a.next) && RefreshEvolve(a.refresh, b.refresh, a.next)
  }

  lemma DeleteUserEvolves(db: Db, user: Id)
    ensures Evolves(db, DeleteUser(db, user))
  {}

  lemma RemoveClientsEvolves(db: Db, cs: set<Id>)
    ensures Evolves(db, RemoveClients(db, cs))
  {}

  lemma RevokeEvolves(db: Db, gs: set<Id>)
    ensures Evolves(db, RevokeGrants(db, gs))
  {}

  lemma DeleteTokenEvolves(db: Db, user: Id, id: Id)
    ensures Evolves(db, DeleteToken(db, user, id))
  {}

  lemma PruningEvolves(db: Db, now: int)
    ensures Evolves(db, CleanCodes(db, now)) && Evolves(db, CleanRefresh(db, now)) && Evolves(db, CleanTokens(db, now))
  {}

  lemma EitherEvolves(a: Db, done: bool, after: Db, before: Db)
    requires Evolves(before, after) && Evolves(a, before)
    ensures Evolves(a, Either(done, after, before))
  {
    EvolvesTwice(a, before, after);
  }

  lemma CleanEvolves(db: Db, codes: bool, refresh: bool, tokens: bool, clients: bool, now: int)
    ensures Evolves(db, Clean(db, codes, refresh, tokens, clients, now))
  {
    hide Evolves, Either, CleanCodes, CleanRefresh, CleanTokens, StaleClients;
    var d1 := Either(codes, CleanCodes(db, now), db);
    var d2 := Either(refresh, CleanRefresh(d1, now), d1);
    var d3 := Either(tokens, CleanTokens(d2, now), d2);
    EvolvesNowhere(db);
    PruningEvolves(db, now);
    EitherEvolves(db, codes, CleanCodes(db, now), db);
    PruningEvolves(d1, now);
    EitherEvolves(db, refresh, CleanRefresh(d1, now), d1);
    PruningEvolves(d2, now);
    EitherEvolves(db, tokens, CleanTokens(d2, now), d2);
    RemoveClientsEvolves(d3, StaleClients(d3, now));
    EitherEvolves(db, clients, CleanClients(d3, now), d3);
  }

  lemma CreateCodeEvolves(db: Db, c: AuthCode, now: int)
    ensures Evolves(db, CreateCode(db, c, now))
  {}

  lemma CreationsEvolve(db: Db, user: Id, name: string, scopes: seq<string>, forms: seq<string>, ttl: int, now: int)
    ensures Evolves(db, CreateUser(db))
    ensures Evolves(db, CreateClient(db, name, now))
    ensures Evolves(db, CreateToken(db, user, name, scopes, forms, ttl, now))
  {}

  lemma IssueGrantEvolves(db: Db, h: Digest, now: int)
    requires h in db.codes && !db.codes[h].used
    ensures Evolves(db, IssueGrant(Spend(db, h), h, now))
  {}

  lemma MintEvolves(a: Db, db: Db, g: Id, now: int)
    requires CanMint(db, g) && Evolves(a, db)
    ensures Evolves(a, Mint(db, g, now).0)
  {}

  lemma SpendEvolves(db: Db, h: Digest)
    requires h in db.codes && !db.codes[h].used
    ensures Evolves(db, Spend(db, h))
  {}

  lemma ExchangeEvolves(db: Db, raw: nat, accepted: bool, now: int)
    ensures Evolves(db, Exchange(db, raw, accepted, now).0)
  {
    hide Evolves, IssueGrant, Mint, RevokeGrants;
    var h := HashToken(raw);
    EvolvesNowhere(db);
    if raw != 0 && h in db.codes {
      RevokeEvolves(db, {db.codes[h].grant});
      if !db.codes[h].used {
        SpendEvolves(db, h);
        if db.codes[h].client in db.clients && db.codes[h].user in db.users {
          IssueGrantEvolves(db, h, now);
          IssuedCanMint(db, h, now);
          MintEvolves(db, IssueGrant(Spend(db, h), h, now), db.next, now);
        }
      }
    }
  }

  lemma IssuedCanMint(db: Db, h: Digest, now: int)
    requires h in db.codes && db.codes[h].client in db.clients && db.codes[h].user in db.users
    ensures CanMint(IssueGrant(Spend(db, h), h, now), db.next)
  {}

  lemma RefreshEvolves(db: Db, raw: nat, client: Id, now: int)
    ensures Evolves(db, RefreshGrant(db, raw, client, now).0)
  {
    var h := HashToken(raw);
    if raw != 0 && h in db.refresh && CanMint(SpendRefresh(db, h), db.refresh[h].grant) {
      MintEvolves(db, SpendRefresh(db, h), db.refresh[h].grant, now);
    }
  }

  lemma StepEvolves(db: Db, e: Event)
    ensures Evolves(db, Apply(db, e))
  {
    hide Evolves;
    EvolvesNowhere(db);
    match e.op
    case AddUser => CreationsEvolve(db, 0, [], [], [], 0, e.now);
    case RemoveAccount(user) => DeleteUserEvolves(db, user);
    case Register(name) => CreationsEvolve(db, 0, name, [], [], 0, e.now);
    case Evict(max) => RemoveClientsEvolves(db, Evicted(db, max));
    case Approve(consent) => CreateCodeEvolves(db, consent, e.now);
    case Redeem(code, accepted) => ExchangeEvolves(db, code, accepted, e.now);
    case Rotate(refresh, client) => RefreshEvolves(db, refresh, client, e.now);
    case Disconnect(user, grant) => RevokeEvolves(db, {grant});
    case Sweep(c1, c2, c3, c4) => CleanEvolves(db, c1, c2, c3, c4, e.now);
    case MintByHand(user, name, scopes, forms, ttl) => CreationsEvolve(db, user, name, scopes, forms, ttl, e.now);
    case RevokeByHand(user, id) => DeleteTokenEvolves(db, user, id);
  }

  /** From any point of a run to any later one. */
  lemma {:induction false} RunEvolves(db: Db, run: seq<Event>, i: nat, j: nat)
    requires i <= j <= |run|
    ensures Evolves(After(db, run[..i]), After(db, run[..j]))
  {
    if i < j {
      RunEvolves(db, run, i, j - 1);
      AfterNext(db, run, j - 1);
      StepEvolves(After(db, run[..j - 1]), run[j - 1]);
      EvolvesTwice(After(db, run[..i]), After(db, run[..j - 1]), After(db, run[..j]));
    } else {
      EvolvesNowhere(After(db, run[..i]));
    }
  }

  lemma EvolvesTwice(a: Db, b: Db, c: Db)
    requires Evolves(a, b) && Evolves(b, c)
    ensures Evolves(a, c)
  {}

  lemma EvolvesNowhere(a: Db)
    ensures Evolves(a, a)
  {}

  lemma AfterNext(db: Db, run: seq<Event>, i: nat)
    requires i < |run|
    ensures After(db, run[..i + 1]) == Apply(After(db, run[..i]), run[i])
  {
    assert run[..i + 1][..i] == run[..i];
  }

  // ---- a code is redeemed at most once

  function Answer(db: Db, e: Event): Outcome
    requires e.op.Redeem? || e.op.Rotate?
  {
    match e.op
    case Redeem(code, accepted) => Exchange(db, code, accepted, e.now).1
    case Rotate(refresh, client) => RefreshGrant(db, refresh, client, e.now).1
  }

  predicate RedeemsAt(db: Db, run: seq<Event>, i: nat, code: nat) {
    i < |run| && run[i].op.Redeem? && run[i].op.code == code && Answer(After(db, run[..i]), run[i]).Issued?
  }

  lemma IssuingSpends(db: Db, raw: nat, accepted: bool, now: int)
    requires Exchange(db, raw, accepted, now).1.Issued?
    ensures HashToken(raw) in db.codes && !db.codes[HashToken(raw)].used
    ensures var codes := Exchange(db, raw, accepted, now).0.codes;
            HashToken(raw) in codes && codes[HashToken(raw)].used
  {}

  lemma ApplyRedeem(db: Db, e: Event)
    requires e.op.Redeem?
    ensures Apply(db, e) == Exchange(db, e.op.code, e.op.accepted, e.now).0
  {}

  /** Code single use: over any run, at most one exchange of a given code commits. */
  lemma CodeIsRedeemedOnce(db: Db, run: seq<Event>, i: nat, j: nat, code: nat)
    requires Inv(db) && RedeemsAt(db, run, i, code) && RedeemsAt(db, run, j, code)
    ensures i == j
  {
    hide Exchange, Inv, Apply, GrantsEvolve, TokensEvolve, RefreshEvolve;
    var a, b := if i < j then i else j, if i < j then j else i;
    var first, second := After(db, run[..a]), After(db, run[..b]);
    if a < b {
      IssuingSpends(first, code, run[a].op.accepted, run[a].now);
      IssuingSpends(second, code, run[b].op.accepted, run[b].now);
      AfterNext(db, run, a);
      ApplyRedeem(first, run[a]);
      RunEvolves(db, run, a + 1, b);
      CodesBelowNext(db, run, a + 1);
    }
  }

  lemma CodesBelowNext(db: Db, run: seq<Event>, i: nat)
    requires Inv(db) && i <= |run|
    ensures forall h :: h in After(db, run[..i]).codes ==> h.of < After(db, run[..i]).next
  {
    InvariantOverRuns(db, run[..i]);
  }
}
