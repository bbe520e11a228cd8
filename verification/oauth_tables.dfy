/** The OAuth authorization server's tables, and what each statement and transaction does to them.

    A Db is one committed state of the tables. Every id and secret is a natural number drawn from
    the counter next, so a fresh one has never been seen before; 0 stands for the empty string that
    the columns use for "none". Only digests of secrets are stored. Times are whole seconds. */
module OAuthTables {
  import opened Basics
  import opened Scopes

  type Id = nat

  /** hashToken: collisions aside, a digest determines its secret. */
  datatype Digest = Digest(of: nat)

  function HashToken(raw: nat): Digest {
    Digest(raw)
  }

  const AUTH_CODE_TTL := 60
  const ACCESS_TOKEN_TTL := 3600
  const REFRESH_TOKEN_TTL := 30 * 24 * 3600
  const UNUSED_CLIENT_TTL := 3600
  const SPENT_CODE_RETENTION := 24 * 3600

  datatype Client = Client(name: string, createdAt: int)

  datatype Code = Code(client: Id, user: Id, redirect: string, challenge: string, resource: string,
                       scopes: string, forms: string, expires: int, used: bool, grant: Id)

  datatype Grant = Grant(client: Id, user: Id, redirect: string, scopes: string, forms: string, createdAt: int)

  datatype Refresh = Refresh(grant: Id, expires: int, used: bool)

  datatype Expiry = Never | At(time: int)

  /** One api_tokens row. grant is 0 for a token minted by hand. */
  datatype Token = Token(id: Id, user: Id, name: string, scopes: string, forms: string,
                         createdAt: int, expires: Expiry, grant: Id)

  datatype Db = Db(next: nat, users: set<Id>, clients: map<Id, Client>, codes: map<Digest, Code>,
                   grants: map<Id, Grant>, refresh: map<Digest, Refresh>, tokens: map<Digest, Token>)

  /** What an authorization code stands for. */
  datatype AuthCode = AuthCode(client: Id, user: Id, redirect: string, challenge: string, resource: string,
                               scopes: seq<string>, forms: seq<string>)

  function Consent(c: Code): AuthCode {
    AuthCode(c.client, c.user, c.redirect, c.challenge, c.resource, Entries(c.scopes), Entries(c.forms))
  }

  datatype TokenPair = TokenPair(grant: Id, access: nat, refresh: nat, expiresIn: int, scopes: seq<string>)

  /** Reused is ErrCodeReused or ErrRefreshReused; RevokeFailed is that error joined with
      ErrRevokeFailed; Failed is a database error, including a refused foreign key. */
  datatype Outcome =
    | Issued(pair: TokenPair)
    | NotFound
    | Reused
    | RevokeFailed
    | Rejected
    | Failed

  // ---- cascades

  function WithoutTokensOf(tokens: map<Digest, Token>, gs: set<Id>): map<Digest, Token> {
    map h | h in tokens && tokens[h].grant !in gs :: tokens[h]
  }

  function WithoutRefreshOf(refresh: map<Digest, Refresh>, gs: set<Id>): map<Digest, Refresh> {
    map h | h in refresh && refresh[h].grant !in gs :: refresh[h]
  }

  /** revokeGrant, for a set of grants at once. The foreign key takes the refresh tokens along; the
      access tokens need a statement of their own. */
  function RevokeGrants(db: Db, gs: set<Id>): Db {
    db.(tokens := WithoutTokensOf(db.tokens, gs),
        grants := db.grants - gs,
        refresh := WithoutRefreshOf(db.refresh, gs))
  }

  function GrantsOfUser(db: Db, user: Id): set<Id> {
    set g | g in db.grants && db.grants[g].user == user
  }

  function GrantsOfClients(db: Db, cs: set<Id>): set<Id> {
    set g | g in db.grants && db.grants[g].client in cs
  }

  /** DELETE FROM oauth_clients with its cascades. Nothing here reaches api_tokens. */
  function RemoveClients(db: Db, cs: set<Id>): Db {
    var gs := GrantsOfClients(db, cs);
    db.(clients := db.clients - cs,
        codes := map h | h in db.codes && db.codes[h].client !in cs :: db.codes[h],
        grants := db.grants - gs,
        refresh := WithoutRefreshOf(db.refresh, gs))
  }

  /** DELETE FROM users with its cascades. An access token goes because of its own user, not
      because of its grant. */
  function RemoveUser(db: Db, user: Id): Db {
    var gs := GrantsOfUser(db, user);
    db.(users := db.users - {user},
        tokens := map h | h in db.tokens && db.tokens[h].user != user :: db.tokens[h],
        codes := map h | h in db.codes && db.codes[h].user != user :: db.codes[h],
        grants := db.grants - gs,
        refresh := WithoutRefreshOf(db.refresh, gs))
  }

  // ---- issuing

  /** insertAPIToken, with its own foreign key. Consumes one secret and one id. */
  function InsertToken(db: Db, user: Id, name: string, scopes: seq<string>, forms: seq<string>,
                       ttl: int, grant: Id, now: int): Db
    requires user in db.users
  {
    var expires := if ttl == 0 then Never else At(now + ttl);
    db.(next := db.next + 2,
        tokens := db.tokens[HashToken(db.next) :=
          Token(db.next + 1, user, name, Column(scopes), Column(forms), now, expires, grant)])
  }

  predicate CanMint(db: Db, g: Id) {
    g in db.grants && db.grants[g].client in db.clients && db.grants[g].user in db.users
  }

  /** mintTokens: one access and one refresh token, read from the grant row. */
  function Mint(db: Db, g: Id, now: int): (Db, TokenPair)
    requires CanMint(db, g)
  {
    var row := db.grants[g];
    var d := InsertToken(db, row.user, db.clients[row.client].name, Entries(row.scopes), Entries(row.forms),
                         ACCESS_TOKEN_TTL, g, now);
    (d.(next := d.next + 1,
        refresh := d.refresh[HashToken(d.next) := Refresh(g, now + REFRESH_TOKEN_TTL, false)]),
     TokenPair(g, db.next, d.next, ACCESS_TOKEN_TTL, Entries(row.scopes)))
  }

  function GrantsBetween(db: Db, client: Id, user: Id): set<Id> {
    set g | g in db.grants && db.grants[g].client == client && db.grants[g].user == user
  }

  /** The new grant row, and the code's link to it. */
  function AddGrant(db: Db, h: Digest, now: int): Db
    requires h in db.codes
  {
    var c := db.codes[h];
    db.(next := db.next + 1,
        grants := db.grants[db.next := Grant(c.client, c.user, c.redirect, c.scopes, c.forms, now)],
        codes := db.codes[h := c.(grant := db.next)])
  }

  /** What an accepted exchange does once the code is spent: replace, then grant. */
  function IssueGrant(db: Db, h: Digest, now: int): Db
    requires h in db.codes
  {
    AddGrant(RevokeGrants(db, GrantsBetween(db, db.codes[h].client, db.codes[h].user)), h, now)
  }

  function Spend(db: Db, h: Digest): Db
    requires h in db.codes
  {
    db.(codes := db.codes[h := db.codes[h].(used := true)])
  }

  /** The replay branch shared by both credentials. */
  function Replayed(db: Db, g: Id): Db {
    if g == 0 then db else RevokeGrants(db, {g})
  }

  /** ExchangeAuthCode with no database fault; accepted is what the caller's check answered. */
  function Exchange(db: Db, raw: nat, accepted: bool, now: int): (Db, Outcome) {
    var h := HashToken(raw);
    if raw == 0 || h !in db.codes then (db, NotFound)
    else
      var c := db.codes[h];
      if c.used then (Replayed(db, c.grant), Reused)
      else if c.expires <= now then (db, NotFound)
      else if !accepted then (Spend(db, h), Rejected)
      else if c.client !in db.clients || c.user !in db.users then (db, Failed)
      else
        var granted := IssueGrant(Spend(db, h), h, now);
        var (minted, pair) := Mint(granted, db.next, now);
        (minted, Issued(pair))
  }

  function SpendRefresh(db: Db, h: Digest): Db
    requires h in db.refresh
  {
    db.(refresh := db.refresh[h := db.refresh[h].(used := true)])
  }

  /** RefreshGrant with no database fault. */
  function RefreshGrant(db: Db, raw: nat, client: Id, now: int): (Db, Outcome) {
    var h := HashToken(raw);
    if raw == 0 || h !in db.refresh then (db, NotFound)
    else
      var r := db.refresh[h];
      if r.expires <= now || r.grant !in db.grants || db.grants[r.grant].client != client then (db, NotFound)
      else if r.used then (Replayed(db, r.grant), Reused)
      else if !CanMint(SpendRefresh(db, h), r.grant) then (db, NotFound)
      else
        var (minted, pair) := Mint(SpendRefresh(db, h), r.grant, now);
        (minted, Issued(pair))
  }

  /** The first thing in a transaction that fails: its start or look-up, the spent mark, the reading of
      that mark's row count, or anything after it, the commit included. */
  datatype Fault = NoFault | Start | Mark | Counting | Later

  predicate Spends(answer: Outcome) {
    answer.Issued? || answer.Rejected?
  }

  /** How ExchangeAuthCode and RefreshGrant end under a fault, given how they end without one. */
  function Under(db: Db, settled: (Db, Outcome), fault: Fault): (Db, Outcome) {
    match fault
    case NoFault => settled
    case Start => (db, Failed)
    case Mark => if Spends(settled.1) then (db, Failed) else settled
    case Counting => if Spends(settled.1) then (db, Reused) else settled
    case Later => if Spends(settled.1) then (db, Failed) else if settled.1.Reused? then (db, RevokeFailed) else settled
  }

  // ---- the other public operations

  function CreateUser(db: Db): Db {
    db.(next := db.next + 1, users := db.users + {db.next})
  }

  function DeleteUser(db: Db, user: Id): Db {
    if |db.users| <= 1 || user !in db.users then db else RemoveUser(db, user)
  }

  function CreateClient(db: Db, name: string, now: int): Db {
    db.(next := db.next + 1, clients := db.clients[db.next := Client(name, now)])
  }

  function CreateCode(db: Db, c: AuthCode, now: int): Db {
    if c.client !in db.clients || c.user !in db.users then db
    else
      db.(next := db.next + 1,
          codes := db.codes[HashToken(db.next) :=
            Code(c.client, c.user, c.redirect, c.challenge, c.resource, Column(c.scopes), Column(c.forms),
                 now + AUTH_CODE_TTL, false, 0)])
  }

  function RevokeOAuthGrant(db: Db, user: Id, g: Id): Db {
    if g in db.grants && db.grants[g].user == user then RevokeGrants(db, {g}) else db
  }

  function CreateToken(db: Db, user: Id, name: string, scopes: seq<string>, forms: seq<string>, ttl: int, now: int): Db {
    if user == 0 || user !in db.users then db
    else InsertToken(db, user, name, scopes, forms, ttl, 0, now)
  }

  function DeleteToken(db: Db, user: Id, id: Id): Db {
    db.(tokens := map h | h in db.tokens && !(db.tokens[h].user == user && db.tokens[h].id == id) :: db.tokens[h])
  }

  function Ungranted(db: Db): set<Id> {
    set c | c in db.clients && forall g :: g in db.grants ==> db.grants[g].client != c
  }

  /** created_at DESC, id DESC: a is listed before b. */
  predicate NewerRow(clients: map<Id, Client>, a: Id, b: Id)
    requires a in clients && b in clients
  {
    clients[a].createdAt > clients[b].createdAt || (clients[a].createdAt == clients[b].createdAt && a > b)
  }

  function NewerUngranted(db: Db, c: Id): set<Id>
    requires c in db.clients
  {
    set o | o in Ungranted(db) && NewerRow(db.clients, o, c)
  }

  /** ORDER BY created_at DESC, id DESC LIMIT -1 OFFSET max-1: a negative offset is no offset. */
  function Evicted(db: Db, max: int): set<Id> {
    set c | c in Ungranted(db) && |NewerUngranted(db, c)| >= max - 1
  }

  function MakeRoom(db: Db, max: int): Db {
    RemoveClients(db, Evicted(db, max))
  }

  // ---- CleanExpiredOAuth: four statements, each committed on its own

  function CleanCodes(db: Db, now: int): Db {
    db.(codes := map h | h in db.codes && db.codes[h].expires > now - SPENT_CODE_RETENTION :: db.codes[h])
  }

  function LiveRefresh(refresh: map<Digest, Refresh>, now: int): map<Digest, Refresh> {
    map h | h in refresh && refresh[h].expires > now :: refresh[h]
  }

  function CleanRefresh(db: Db, now: int): Db {
    db.(refresh := LiveRefresh(db.refresh, now))
  }

  predicate Expired(t: Token, now: int) {
    t.expires.At? && t.expires.time <= now
  }

  function CleanTokens(db: Db, now: int): Db {
    db.(tokens := map h | h in db.tokens && (db.tokens[h].grant == 0 || !Expired(db.tokens[h], now)) :: db.tokens[h])
  }

  function StaleClients(db: Db, now: int): set<Id> {
    set c | c in Ungranted(db) && db.clients[c].createdAt < now - UNUSED_CLIENT_TTL
  }

  function CleanClients(db: Db, now: int): Db {
    RemoveClients(db, StaleClients(db, now))
  }

  function Either(done: bool, after: Db, before: Db): Db {
    if done then after else before
  }

  /** The four flags say which statements succeeded; a failed one leaves its table alone. */
  function Clean(db: Db, codes: bool, refresh: bool, tokens: bool, clients: bool, now: int): Db {
    var d1 := Either(codes, CleanCodes(db, now), db);
    var d2 := Either(refresh, CleanRefresh(d1, now), d1);
    var d3 := Either(tokens, CleanTokens(d2, now), d2);
    Either(clients, CleanClients(d3, now), d3)
  }

  // ---- reads

  /** GetAPIToken. */
  function GetToken(db: Db, raw: nat, now: int): Option<Token> {
    var h := HashToken(raw);
    if raw != 0 && h in db.tokens && !Expired(db.tokens[h], now) then Some(db.tokens[h]) else None
  }

  datatype Connection = Connection(row: Grant, clientName: string)

  /** ListOAuthGrants, as a map from grant id. */
  function ListGrants(db: Db, user: Id): map<Id, Connection> {
    map g | g in db.grants && db.grants[g].user == user && db.grants[g].client in db.clients ::
      Connection(db.grants[g], db.clients[db.grants[g].client].name)
  }

  /** ListAPITokens, as a map from digest: the hand-made tokens of one user. */
  function ListTokens(db: Db, user: Id): map<Digest, Token> {
    map h | h in db.tokens && db.tokens[h].user == user && db.tokens[h].grant == 0 :: db.tokens[h]
  }
}
