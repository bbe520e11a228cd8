# A verified model of dsforms

dsforms collects form submissions, screens and quarantines them, mails a
waiting list, lets MCP clients connect over OAuth, and can restore itself from
a backup. This project models the parts of it that keep state across failures
or transform data, and proves what they promise. `dafny verify dfyconfig.toml`
checks everything.

## The modules

- **OAuth store** (`oauth_tables`, `oauth_invariant`, `oauth_runs`, `oauth_history`,
  `oauth_replay`, `oauth_redeem`, `oauth_approval`, `oauth_rows`, `oauth_housekeeping`,
  `oauth_store`, with `scopes` for the list columns). The tables are finite maps; each public
  operation is a function on them and a method of `Store` that works in place, statement by
  statement, with any statement, row count or commit allowed to fail. The missing foreign key
  on `api_tokens.grant_id` is the centre: the link it would keep is an invariant of every run.
- **Restore** (`restore`, `restore_upload`, `restore_writes`, `restore_import`). Four files, a
  handle and a program counter. Every call may fail, requests may commit while the handle is
  open, the process may die between any two calls. `Instance.Import` is the code's own order
  of calls, proved to be a run of that machine.
- **Redaction** (`redact_invisible`, `redact_runes`, `redact_scan`, `redact_markers`,
  `redact_grammar`, `redact_report`, `redact`, `redact_cut`, `redact_printable`, with `bytes`).
  Byte by byte: UTF-8 decoding, terminal escapes, forged chat markers, the report.
- **Broadcast queue** (`broadcast`, `broadcast_outcome`). Deliveries, marks that may not land,
  closing, the summary's numbers.
- **Screening** (`screen_score`, `screen_content`, `screen_monotone`, `screen_rules`,
  `screen_repeat`, `screen`, `screen_meaning`). Score, operator rules, bounded repeat tally,
  verdict.
- **Rate limiter and login guard** (`ratelimit`, `ratelimit_service`, `login_guard`).
- **Quarantine** (`quarantine`, `quarantine_rows`, `quarantine_store`). Hold, restore, mark,
  purge, and who is told how often.
- **Consent signature** (`consent`, `consent_form`).

State-changing code is a class whose methods are proved against functions of the
old state; the theorems about whole runs are lemmas about those functions. Beside them
stand lemmas that say what a function does without its name: what a marker looks like byte
by byte (`redact_grammar`), which code points go (`redact_runes`), what each type of rule and
each content check means (`screen_meaning`, `screen_content`), which step ends which row
(`oauth_rows`, `quarantine_rows`), which field a value is read from (`consent_form`).

## What the model takes as given

- Ids and secrets are drawn from a counter, so fresh ones are new; a digest
  determines its secret. Submission ids are never drawn twice. HMAC is an
  injective function of the bytes written to it.
- A transaction is atomic, holds the write lock from its start
  (`internal/store/store.go:526-528`), and leaves nothing behind when it fails.
- Clocks do not go back where a run is said to be ordered; times are whole seconds,
  except in the limiter, where they and the token counts are reals instead of
  `float64` and durations.
- A checkpoint reports true frame counts, and a log's last frame is what a reader
  sees. The `-shm` file is not modelled. Whether a database error is the machine's
  fault is an input.
- Lower-casing and trimming of Unicode, the gibberish heuristic, cutting a match to
  200 runes, `net/mail`, `net.ParseIP` and `net.ParseCIDR` are function parameters.
- The constructors require what the program passes them: a positive burst, rate,
  batch size, attempt limit, failure limit and tally size.

## What the proofs found

- **Restore, stale log.** When the look at the write-ahead log fails with something
  other than "not there", it is not removed. If the close did not reset it and it
  held frames, the replacement opens with the old log beside it: `Import` answers
  nil and the old content is served (`StaleLogCanOutliveARestore`). This is the only
  way (`NilServesTheUploadExactlyWhen`).
- **Restore, stray log.** `store.Reopen` commits migrations one by one; when a later one
  fails it closes the handle and drops the error, and a close that cannot checkpoint leaves
  the log. The way back renames the parked file onto dbPath beside that log, so `Import`
  answers that it rolled back and serves what the failed open had made of the upload
  (`StrayLogCanOutliveARollback`); a process that dies before the reopen restarts on it with
  nothing parked (`CrashBesideAStrayLog`). The original is served exactly unless a failed
  open left a last frame that differs from it (`Import`, `AnswerMeans`,
  `OriginalIsAlwaysSomewhere`).
- **Restore, lost writes.** A write committed between the flush and a close that does not
  checkpoint is in the log alone, and the log is then removed: a restore that rolls
  back serves the database without it (`AWriteIsLost`). It is kept exactly if the
  close checkpoints, a later flush held it, or the log was neither removed nor emptied
  into the replacement, and a failed open left nothing in front of it
  (`FailedRestoreKeepsWritesExactlyWhen`). Dying between the park and the swap loses it even
  with the log in place, because a start deletes a log that has no database
  (`CrashKeepsWritesExactlyWhen`, `ACrashLosesAWrite`).
- **Refresh.** When the spent mark is written but its row count cannot be read,
  `RefreshGrant` answers ErrRefreshReused and revokes nothing. That error means a dead
  grant exactly when the token had been spent before
  (`ReusedMeansADeadGrantExactlyWhen`), and every token that could be rotated can get it
  (`ALiveTokenCanBeCalledUsed`). The branch that finds a row count other than one, with no fault, is unreachable.
- **Form lists.** A consent list whose entries are only commas and space is stored as the
  empty column, which reads as every form; no other list is
  (`ConsentedFormsReadBack`).
- **Broadcast.** A send after which neither mark lands is not counted as an attempt, so
  mails are bounded by the limit and one for each such send, and that many can go
  out (`SendsAreBounded`, `BoundIsReached`).
- **Limiter.** As soon as maxAge * rate < burst the sweep can be noticed, and twice the
  burst can pass in less time than one takes to refill
  (`SweepIsInvisibleExactlyWhen`, `WindowBoundExactlyWhen`). maxAge is thirty minutes
  (main.go:1131) and burst and rate are configuration
  (internal/config/config.go:101-102); the defaults are far from it.
- **Redaction.** The comment that a matched text is printable ASCII is not the code: a
  bracket marker may carry a carriage return, which the report keeps. The value
  "[\rinst]" shows it (`ReturnIsReported`), and `ReportIsPrintableExactlyWhen` says
  exactly which values do.
- **Quarantine.** An email whose mark did not land goes again on every later
  mark-and-restore cycle, and so does the webhook of a form that has no email
  (`CyclesSend`); two restores that overlap send twice
  (`RestoreWithoutWaitingSendsTwice`), and any number of either can add up
  (`MailBoundIsReached`).
- **Codes.** Pruning clients takes their unspent codes with them, however fresh
  (`PruningTakesAFreshCode`).
- **Screening.** A further form field can release a held submission only as the first one
  that claims to be the sender, by an allow rule for that sender; `AFieldCanRelease` is one.
- **Login guard.** Without a success in between, an address fails at most maxFails times and
  then once a lockout, or maxFails times per age of the clean-up if that is more, and once for each login
  that had looked before the lock fell (`FailuresAreBounded`); that many do come through
  (`FailuresReachTheBound`). With the program's numbers (main.go:1133-1134) forgetting is the
  faster way: up to five per half hour, where lockouts alone let two through.

## Model

| member | source | states |
|---|---|---|
| OAuthRuns.InvariantOverRuns | internal/store/oauth.go:204-429 | in every reachable state each access token with a grant names an existing grant of the same user with the consented scopes and forms, there is one grant per client and user, every refresh token has its grant, and a grant has at most one unspent refresh token |
| OAuthRuns.StepKeepsInv | internal/store/oauth.go:419-429 | every single operation keeps that invariant, although api_tokens.grant_id has no foreign key |
| OAuthInvariant.RemoveClientsLinked | internal/store/oauth.go:142-164 | deleting clients is safe because only ungranted ones go: no grant or refresh token is touched |
| OAuthInvariant.RemoveUserLinked | internal/store/store.go:791-814 | deleting an account leaves no access token without its grant, though tokens go by their own user column |
| OAuthInvariant.IssueGrantLinked | internal/store/oauth.go:250-276 | replacing the pair's earlier grant and inserting the new one keeps one grant per pair, and the new grant can be minted from |
| OAuthInvariant.ExchangeKeeps | internal/store/oauth.go:204-277 | an exchange keeps the invariant and is never refused by a foreign key |
| OAuthInvariant.RefreshKeeps | internal/store/oauth.go:305-352 | a rotation keeps the invariant, including one unspent refresh token per grant |
| OAuthInvariant.CleanKeeps | internal/store/oauth.go:502-524 | cleaning with any subset of its statements succeeding keeps the invariant |
| OAuthRuns.RunEvolves | internal/store/oauth.go:204-429 | between any two points of a run rows appear only under fresh keys, grants and tokens are never rewritten, and a spent code or refresh token stays spent |
| OAuthRuns.CodeIsRedeemedOnce | internal/store/oauth.go:186-203 | over any run at most one exchange of a given code commits |
| OAuthHistory.ReplayRevokes | internal/store/oauth.go:231-247 | a replay takes the grant the credential issued, with all its tokens, and nothing else |
| OAuthHistory.ReplayedGrantNeverReturns | internal/store/oauth.go:282-293 | after a replay was answered that grant has no row, access token or refresh token at any later point |
| OAuthReplay.SpentCodeIsRecognised | internal/store/oauth.go:186-203 | a spent code is answered as a replay at any later point of any run, until its client or user is gone or a clean-up has run a day past its expiry |
| OAuthReplay.SpentRefreshIsRecognised | internal/store/oauth.go:490-500 | a spent refresh token is answered as a replay until it expires, as long as its grant is there |
| OAuthRedeem.RedeemableExactlyWhen | internal/store/oauth.go:204-277 | over any run, an unspent code can be redeemed until it expires exactly unless it was presented in time or its user or client has gone |
| OAuthRedeem.CleanIsNoticedByCodesExactlyWhen | internal/store/oauth.go:490-524 | whoever holds a code that could still be presented notices a clean-up exactly when it prunes the code's client |
| OAuthRedeem.PruningTakesAFreshCode | internal/store/oauth.go:490-524 | an approval seconds old goes with a client registered over an hour ago that has no grant |
| OAuthReplay.OwnersNeverReturn | internal/store/store.go:791-814 | no operation brings back a client or account that is gone |
| OAuthHistory.GrantTracesToRedemption | internal/store/oauth.go:250-276 | every grant goes back to one accepted redemption of an unspent, unexpired code with the same client, user, scopes and forms |
| OAuthHistory.CodeTracesToApproval | internal/store/oauth.go:168-183 | every code goes back to one approval, with that approval's client, user, redirect URI, challenge and resource, its lists as columns and a lifetime of sixty seconds |
| OAuthApproval.TheCheckIsShownTheApproval | internal/store/oauth.go:168-226 | at every later point of any run the caller's check is shown the approval itself, field by field, with the lists as their columns read |
| OAuthApproval.IssuedExactlyWhenTheApprovalIsAccepted | internal/store/oauth.go:204-277 | over any run, a code nobody presented in time, with its owners there, is exchanged within its sixty seconds exactly when the check accepts what was approved, and otherwise rejected |
| OAuthApproval.CleanApprovalIsShownAsItIs | internal/store/apitokens.go:140-154 | an approval of clean lists is shown as it was given |
| OAuthHistory.AccessTokenTracesToApproval | internal/store/oauth.go:357-389 | every access token, however often its grant was refreshed, reaches exactly the user, scopes and forms of one approval redeemed in time |
| OAuthHistory.IssuedPairWorks | internal/store/oauth.go:357-389 | an issued access token opens to its grant's user, scopes and forms exactly until its lifetime ends; an issued refresh token rotates for the grant's client exactly until its own does |
| OAuthHistory.TokenEndsExactlyWhen | internal/store/oauth.go:392-429 | a token ends in a step exactly for one of the listed reasons; no step on one grant takes another's tokens |
| OAuthRows.GrantEndsExactlyWhen | internal/store/oauth.go:392-488 | a grant ends in a step exactly when its account is removed, its owner disconnects it, its code or a refresh token of it is replayed, or the same client and user are granted anew |
| OAuthRows.RefreshEndsExactlyWhen | internal/store/oauth.go:419-524 | a refresh token ends exactly with its grant, or by a clean-up once it has expired |
| OAuthRows.CodeEndsExactlyWhen | internal/store/oauth.go:490-524 | a code ends exactly with its client or account, or by a clean-up a day after it expired |
| OAuthRows.ClientEndsExactlyWhen | internal/store/oauth.go:142-164 | a client ends exactly when it has no grant and is pruned, over an hour old, or evicted behind max-1 newer ungranted ones |
| OAuthRows.UserEndsExactlyWhen | internal/store/store.go:791-814 | an account ends exactly when it is removed while there is another |
| OAuthRows.RemovedAccountIsGone | internal/store/store.go:791-814 | removing an account takes it, its codes, grants, access and refresh tokens, and no row of anyone else's; the last one and an unknown one change nothing |
| OAuthRows.IssuedRows | internal/store/oauth.go:357-389 | whatever is issued is an access token under the client's name for an hour and an unspent refresh token for thirty days |
| OAuthRows.HandMadeTokenOpensExactly | internal/store/apitokens.go:164-240 | at every later point of any run a hand-made token that was not ended opens to its user, name, scopes and forms, until its lifetime is over or for ever when that is zero |
| OAuthRows.HandMadeTokenTracesToItsMaker | internal/store/apitokens.go:164-215 | a token without a grant goes back to the one call that made it, for the same user, scopes and forms |
| OAuthRows.ListingsAreTheUsersOwn | internal/store/oauth.go:432-464 | a user is shown exactly their own connections, with the clients' names, and exactly their hand-made tokens |
| OAuthRows.RegisteredClientStays | internal/store/oauth.go:109-125 | a client stays under its name for an hour at least, whatever happens short of an eviction |
| OAuthHousekeeping.CleanIsUnobservable | internal/store/oauth.go:490-524 | after cleaning, with any subset of its statements succeeding, and any further steps of token users, every lookup, refresh and listing answers as if it had not run |
| OAuthHousekeeping.AlikeAnswers | internal/store/apitokens.go:227-240 | rows that only cleaning removes cannot change an answer |
| OAuthHousekeeping.EvictionKeepsTheNewest | internal/store/oauth.go:142-164 | eviction leaves exactly the newest max-1 ungranted clients, everything gone is older than everything kept, and no grant or token goes |
| OAuthStore.Store.constructor | internal/store/store.go:531-589 | a new instance satisfies the invariant |
| OAuthStore.Store.RevokeGrant | internal/store/oauth.go:419-429 | the grant, its access tokens and its refresh tokens go together |
| OAuthStore.Store.ReplaceGrants | internal/store/oauth.go:392-417 | revokes exactly the pair's grants, one by one |
| OAuthStore.Store.InsertAPIToken | internal/store/apitokens.go:176-215 | stores the normalised columns under a fresh secret, or refuses a missing account |
| OAuthStore.Store.MintTokens | internal/store/oauth.go:357-389 | one access and one refresh token, read from the grant row |
| OAuthStore.Store.RevokeReplayed | internal/store/oauth.go:282-293 | reused with the grant gone, or revocation failed with everything as before |
| OAuthStore.Store.IssueFromCode | internal/store/oauth.go:250-276 | replace, grant, link the code, mint |
| OAuthStore.Store.ExchangeAuthCode | internal/store/oauth.go:204-277 | under whichever fault comes first it ends as the fault-free exchange does or changes nothing and says so; a reuse answer leaves the issued grant gone |
| OAuthStore.Store.RefreshGrant | internal/store/oauth.go:305-352 | under whichever fault comes first it ends as the fault-free rotation does or changes nothing; another client's presentation changes nothing; a reuse answer means a dead grant exactly when the token was spent before |
| OAuthStore.ReusedMeansADeadGrantExactlyWhen | internal/store/oauth.go:305-352 | under any fault the answer that a refresh token was used leaves its grant gone exactly if it had been; otherwise nothing changed and it would still be rotated |
| OAuthStore.ALiveTokenCanBeCalledUsed | internal/store/oauth.go:338-343 | every token that would be rotated is called used when the row count of its spent mark cannot be read, with the grant alive |
| OAuthStore.Store.RevokeOAuthGrant | internal/store/oauth.go:466-488 | revokes the user's own grant, all of it, or nothing |
| OAuthStore.Store.MakeRoomForOAuthClient | internal/store/oauth.go:142-164 | evicts exactly the surplus and counts it; a count that cannot be read leaves the eviction done |
| OAuthStore.Store.CleanExpiredOAuth | internal/store/oauth.go:502-524 | each statement runs whatever the others did; the error says whether any failed |
| OAuthStore.Store.CreateOAuthClient | internal/store/oauth.go:109-125 | a fresh client row or nothing |
| OAuthStore.Store.CreateAuthCode | internal/store/oauth.go:168-183 | a fresh code for a client and user that exist, unless the database fails, or nothing |
| OAuthStore.Store.CreateAPIToken | internal/store/apitokens.go:164-170 | a hand-made token, or nothing |
| OAuthStore.Store.DeleteAPIToken | internal/store/apitokens.go:279-289 | only the owner's token of that id goes, and the answer says whether there was one |
| OAuthStore.Store.GetAPIToken | internal/store/apitokens.go:227-240 | the row of an unexpired secret, and nothing for an empty one |
| OAuthStore.Store.DeleteUser | internal/store/store.go:791-814 | the account with its cascades, never the last one |
| Scopes.SplitScopes | internal/store/apitokens.go:140-148 | the loop computes the trimmed non-blank entries of a column |
| Scopes.JoinScopes | internal/store/apitokens.go:152-154 | stores the normalised column |
| Scopes.EntriesAreClean | internal/store/apitokens.go:140-148 | reading a column gives clean entries, and none exactly when the column is only commas and space |
| Scopes.CleanListRoundTrip | internal/store/apitokens.go:140-154 | storing a clean list and reading it gives the list back |
| Scopes.StoredColumnIsStable | internal/store/apitokens.go:140-154 | splitting and storing a stored column again changes nothing |
| Scopes.OnlyForms | internal/store/formscope.go:34-42 | the loop keeps the trimmed non-blank ids |
| Scopes.ConsentedFormsReadBack | internal/store/formscope.go:52-57 | a stored list reads as every form exactly when it names nothing, and otherwise as exactly its entries |
| Scopes.BlankListReadsAsEveryForm | internal/store/formscope.go:52-57 | a non-empty list that does read as every form |
| Restore.InvariantOverRuns | internal/backup/backup.go:411-577 | the machine's invariant holds over any imports, requests, crashes and restarts |
| Restore.OriginalIsAlwaysSomewhere | internal/backup/backup.go:411-577 | while the handle is down the original content is at dbPath or parked exactly if it is parked or no failed open left another content in front of it, it can be had by moving the parked file back exactly in the second case, and it is parked until the replacement has opened |
| RestoreUpload.RequiredTablesAreSpelled | internal/backup/backup.go:255-268 | what is required is a table users, one forms and one submissions, each in any ASCII case |
| RestoreUpload.ChecksPassExactlyWhen | internal/backup/backup.go:418-491 | exactly when an import goes past its validation, its look for a leftover and its flush, and whose fault a refusal is said to be |
| RestoreUpload.OnlyOurDatabasesAreSwappedIn | internal/backup/backup.go:411-577 | over any runs, what an import past its checks may swap in declares the three tables and has no row in the six secret ones |
| RestoreUpload.SwapGoesOnExactlyWhen | internal/backup/backup.go:498-577 | exactly when each call of the swap and of the way back is followed by the next |
| RestoreUpload.GoodLuckRestores | internal/backup/backup.go:411-577 | with every call as it should be, a valid upload and nothing left over, nil, the stripped upload alone, and no other file |
| RestoreUpload.StripTakesTheSecretsAlone | internal/backup/backup.go:50-177 | stripping empties exactly the six tables, by name in any ASCII case |
| RestoreWrites.SettledExactlyWhen | internal/backup/backup.go:464-496 | after the flush and any requests, commits and checkpoints in any order, the close leaves everything in the main file exactly when it checkpoints or the last flush already held the latest commit |
| RestoreWrites.CommitsAreSettledExactlyWhen | internal/backup/backup.go:485-496 | with commits alone in between: exactly when the close checkpoints, there was none, or the last one wrote what was there before |
| RestoreWrites.FailedRestoreKeepsWritesExactlyWhen | internal/backup/backup.go:485-550 | whatever requests came before the close and whatever failed after it, a restore that rolls back or ends unavailable has the latest commit at hand exactly unless a log that alone held it was removed or emptied into the replacement; where failed opens left frames, exactly if the last of them is that commit |
| RestoreWrites.CrashKeepsWritesExactlyWhen | internal/backup/backup.go:542-577 | dying after the log was looked at, a restart has it at hand exactly so too, and while dbPath has no file exactly if the close had put it into the main file |
| RestoreWrites.CrashAtCloseKeepsWrites | internal/backup/backup.go:493-496 | dying before that loses nothing |
| RestoreWrites.ACrashLosesAWrite | internal/backup/backup.go:556-559 | a run in which dying between park and swap loses a commit whose log was never removed |
| RestoreWrites.AWriteIsLost | internal/backup/backup.go:485-550 | a run in which a write committed between flush and close is lost although the restore answers that it rolled back |
| RestoreWrites.ALostWriteIsNotSetAside | internal/backup/backup.go:485-577 | and one in which a successful restore neither serves nor sets aside that write |
| RestoreWrites.NilServesTheUploadExactlyWhen | internal/backup/backup.go:542-577 | over every way the calls may go, nil serves exactly the stripped upload with nothing over it exactly unless the close left frames and the look at the log failed |
| Restore.FlushThenCloseSettles | internal/backup/backup.go:464-496 | a flush followed at once by the close settles it, and what is kept is what was served |
| Restore.RefusalTouchesNothing | internal/backup/backup.go:418-496 | a refusal leaves the handle, its content and the parked file alone |
| Restore.AnswerMeans | internal/backup/backup.go:411-577 | what each of the four answers guarantees at the step that gives it: rolled back serves the original exactly unless a failed open left a different last frame, unavailable has it at hand under the same condition |
| Restore.ReplacementServesTheUpload | internal/backup/backup.go:555-577 | in any run, requests between the calls included, an opened replacement is the stripped upload with nothing over it exactly unless frames were left at the close and the look failed |
| Restore.StaleLogCanOutliveARestore | internal/backup/backup.go:542-577 | a run in which a restore answers nil and the old content is served |
| Restore.StrayLogCanOutliveARollback | internal/store/store.go:623-647 | a run in which a restore answers that it rolled back and serves what the failed open had made of the upload |
| Restore.CrashBesideAStrayLog | internal/backup/backup.go:498-540 | a run in which dying after the move back restarts on that too, with nothing parked |
| Restore.ParkedFileIsProtected | internal/backup/backup.go:442-462 | a parked file is never overwritten, and removed only by the import that parked it after its replacement opened, or by moving it back |
| Restore.LeftoverSurvives | internal/backup/backup.go:442-462 | a file left parked survives any restarts, empty databases, requests and further imports |
| Restore.CrashLosesNothing | internal/backup/backup.go:411-577 | after dying anywhere in a swap the original stays parked for good if it was parked, and otherwise the restart serves it exactly unless a failed open left a different last frame |
| Restore.StripCredentials | internal/backup/backup.go:96-177 | the loop empties every credential table under whatever spelling, or fails |
| Restore.StripRemovesCredentialsOnly | internal/backup/backup.go:96-177 | no credential row is left, every other table is as it was, stripping again changes nothing, and the required tables stay |
| Restore.Export | internal/backup/backup.go:58-86 | a snapshot is the live content without credentials |
| RestoreImport.Instance.Import | internal/backup/backup.go:411-577 | the whole call is a run of the machine; nil serves exactly the stripped upload unless the close left frames and the look at the log failed, rejected changed nothing and is the only answer to an upload without users, forms and submissions, rolled back serves the original exactly unless the open of the replacement failed and the last frame it left differs, unavailable has it at hand under the same condition or still parked |
| RestoreImport.Instance.Reopen | internal/store/store.go:623-647 | an open that fails leaves what it committed in the log as far as the close after it does not checkpoint |
| RestoreImport.Instance.Replace | internal/backup/backup.go:493-577 | the same from the close on |
| RestoreImport.Instance.RollBack | internal/backup/backup.go:498-540 | moves the original back when it was parked, and reopens it if it is there; what it serves is the original exactly unless a failed open left something else in front |
| RestoreImport.Instance.Prepare | internal/backup/backup.go:411-491 | validation, stripping, the leftover check and the flush, each of which may refuse; an upload without users, forms and submissions always is |
| RedactInvisible.EscapeLength | internal/redact/redact.go:630-659 | the loops compute the length of an escape sequence, which never passes the end of its line |
| RedactInvisible.VisibleIsAllVisible | internal/redact/redact.go:542-548 | no removal can close two runes up into a new one to remove |
| RedactInvisible.AllVisibleIsFixed | internal/redact/redact.go:556-614 | the pass changes a text exactly when there is something to drop, and then shortens it |
| RedactInvisible.FastPathIsExact | internal/redact/redact.go:556-559 | the early return is taken only when nothing would be dropped |
| RedactInvisible.VisibleAtNewline | internal/redact/redact.go:623-629 | a newline is never eaten, whatever escape or broken UTF-8 precedes it |
| RedactInvisible.VisibleByLine | internal/redact/redact.go:556-659 | cleaning a text is cleaning each of its lines |
| RedactInvisible.VisibleIsSubsequence | internal/redact/redact.go:556-614 | nothing is added or reordered |
| RedactRunes.RunesAreDroppedExactly | internal/redact/redact.go:506-531 | every code point but the escape is dropped and reported exactly when it is on the list, and otherwise kept byte for byte |
| RedactRunes.BrokenBytesAreDropped | internal/redact/redact.go:591-596 | a byte from which no code point is encoded is dropped and counted |
| RedactRunes.CsiIsDropped | internal/redact/redact.go:630-647 | ESC [ goes through the first byte in 0x40-0x7E, or to the end of its line |
| RedactRunes.OscIsDropped | internal/redact/redact.go:648-657 | ESC ] goes through the bell or the string terminator, or to the end of its line |
| RedactRunes.ShortEscapeIsDropped | internal/redact/redact.go:630-661 | any other escape goes with one byte, or alone at the end of a line |
| RedactRunes.LinesAreReportedExactly | internal/redact/redact.go:568-588 | a line is reported as invisible text exactly when a code point of it was dropped, as malformed exactly when a byte was |
| RedactScan.StripInvisible | internal/redact/redact.go:556-614 | the scanning loop returns the cleaned text and one hit per line and reason, with original line numbers |
| RedactScan.HitsAreByLine | internal/redact/redact.go:556-614 | the running tally reports each original line on its own |
| RedactScan.NoHitsExactlyWhenVisible | internal/redact/redact.go:556-614 | a hit is reported exactly when the pass dropped something |
| RedactMarkers.KindsDisagree | internal/redact/redact.go:367-397 | no two expressions match at one place |
| RedactGrammar.MatchesExactlyTheMarkers | internal/redact/redact.go:288-321 | each of the three expressions matches at an index exactly when a marker of its family, spelled out byte by byte, lies there |
| RedactGrammar.MarkedExactlyWhenItHoldsAMarker | internal/redact/redact.go:367-398 | a line is marked exactly when such a text is somewhere on it |
| RedactCut.LineMarkersAreExactlyTheTexts | internal/redact/redact.go:367-398 | the report of a line is every marker on it, by its name and its place, and nothing else |
| RedactCut.ValueIsCutExactly | internal/redact/redact.go:415-464 | a value goes from the first visible line that holds a marker, all those lines are reported, and without one nothing is cut or reported as a control token |
| RedactCut.AMarkedFormIsReported | internal/redact/redact.go:156-200 | a submission with a marker on a visible line of some value is reported |
| RedactCut.ReportIsCappedAtSixteen | internal/redact/redact.go:242-261 | up to sixteen hits are all there; past that fifteen and one that stands for the rest |
| RedactCut.DistinctKeepsTheFirsts | internal/redact/redact.go:477-489 | each name is shown where it first occurs and never again |
| RedactCut.FormHitsInFieldOrder | internal/redact/redact.go:156-182 | a submission's hits come in the order of its field names |
| RedactCut.CodePointsAreSpelled | internal/redact/redact.go:666-682 | a dropped code point is written U+ and its number in at least four upper-case hexadecimal digits |
| RedactCut.DroppedAreNamed | internal/redact/redact.go:666-682 | the code points dropped from a line are named once each, at most eight of them |
| RedactCut.LabelsOfTheDropped | internal/redact/redact.go:684-707 | what each kind of dropped code point is called |
| RedactMarkers.LineMarkersAreTheMatches | internal/redact/redact.go:367-397 | a line's markers are all the matches, each strictly further on than the one before, and none exactly when nothing matches |
| RedactMarkers.LineMarkersHaveOneOrder | internal/redact/redact.go:367-397 | whatever order a sort by position, stable or not, leaves the matches in, it is that one |
| RedactMarkers.NameIsBenign | internal/redact/redact.go:386-392 | a reported name holds nothing that could be hidden or start a marker |
| RedactMarkers.StripForgedTurn | internal/redact/redact.go:415-468 | the line loop cuts from the first marked line and reports all that follows |
| RedactMarkers.CutHasNoMarkedLine | internal/redact/redact.go:415-468 | what is kept is the lines before the first marked one, a prefix, shorter exactly when there is one |
| RedactReport.CapKeepsPlaces | internal/redact/redact.go:242-259 | at most sixteen hits, in order, covering every line that was reported |
| Redact.Value | internal/redact/redact.go:211-237 | both passes, the filter of covered hits, the order and the cap |
| Redact.HitsIndexTheOriginal | internal/redact/redact.go:211-259 | every hit on a value satisfies 1 <= line <= through <= number of its original lines, and there are at most sixteen |
| Redact.HitsNameTheirField | internal/redact/redact.go:211-259 | every hit on a value names the field it was asked about |
| Redact.FormHitsPointIntoTheForm | internal/handler/admin.go:495-525 | every hit of a submission that is not about a name names a submitted field and lines its submitted value has, so looking it up never finds it out of range |
| Redact.ReportedExactlyWhenRedacted | internal/redact/redact.go:211-237 | a report is empty exactly when there is nothing to redact, and otherwise the output is strictly shorter |
| Redact.OnePassSuffices | internal/redact/redact.go:211-237 | the output is valid UTF-8 without invisible runes or markers, a second pass changes and reports nothing, and it is a subsequence of the input |
| Redact.UnreportedLinesAreIntact | internal/redact/redact.go:211-259 | a line no hit covers is in the output as it was |
| Redact.ReportsAreClean | internal/redact/redact.go:386-392 | every reported text has itself nothing to redact |
| RedactPrintable.ReportIsPrintableExactlyWhen | internal/redact/redact.go:386-392 | every matched text of a report is printable ASCII exactly unless a bracket marker spanning a carriage return is among the six names spelled out and its hit is not lost past the cap |
| RedactPrintable.ReturnIsReported | internal/redact/redact.go:386-392 | the value "[\rinst]" is reported in one hit whose matched text holds a carriage return |
| Redact.Fields | internal/redact/redact.go:156-181 | the field loop in name order: marked names dropped, values cleaned, hits in order |
| Redact.MarkInName | internal/redact/redact.go:156-181 | hits in a name are reported as such, on line one |
| Redact.Any | internal/redact/redact.go:190-200 | stops early, in any order, with the answer of Fields |
| Redact.HitsExactlyWhenSomethingIsLeft | internal/redact/redact.go:156-200 | a submission is reported exactly when some name or value has something to redact |
| Redact.FieldsIsIdempotent | internal/redact/redact.go:156-181 | redacting a redacted submission changes and reports nothing |
| Bytes.SortKeys | internal/redact/redact.go:156-165 | the collected keys come out in one order, whatever order the map was ranged in |
| Broadcast.NextPending | internal/store/store.go:1593-1615 | at most limit pending rows, in row order, none twice |
| BroadcastOutcome.BatchIsTheFirstPending | internal/store/store.go:1593-1615 | a pass works on a row exactly when it is pending and fewer than limit pending rows come before it |
| BroadcastOutcome.PassOutcome | internal/broadcaster/broadcaster.go:82-139 | after a pass a row of the batch is sent, its attempts unchanged, exactly when its mail was delivered and that mark landed, and failed exactly when the failure mark landed as its last attempt |
| BroadcastOutcome.OthersAreUntouched | internal/broadcaster/broadcaster.go:75-143 | every other row is as it was |
| BroadcastOutcome.SummaryIsWhatHappened | internal/store/store.go:1539-1557 | over any run the summary's sent, failed and total are the sent marks that landed, the last-attempt failure marks that landed, and the recipients of the broadcast |
| BroadcastOutcome.ClosedExactlyWhen | internal/broadcaster/broadcaster.go:179-197 | a closing makes a broadcast done exactly when its count and mark succeed and nothing of it is pending |
| Broadcast.SendsAreBounded | internal/broadcaster/broadcaster.go:75-143 | over any passes, dying passes and new broadcasts, whatever is read, sent, refused or marked, no delivery is mailed more than maxAttempts times plus once for each send after which neither mark landed |
| Broadcast.BoundIsReached | internal/broadcaster/broadcaster.go:117-137 | for any number of unmarked sends there is a run of passes that mails that many and maxAttempts more |
| Broadcast.NoOneIsMailedMoreThanMax | internal/broadcaster/broadcaster.go:75-143 | so with one mark landing per attempt no delivery is mailed more than maxAttempts times |
| Broadcast.SettledRowsAreNeverTouched | internal/store/store.go:1593-1643 | a sent or failed row is never mailed or changed again |
| Broadcast.PassLowersRank | internal/broadcaster/broadcaster.go:75-143 | every pass that finds work uses up at least one attempt per row it works on |
| Broadcast.QueueDrains | internal/broadcaster/broadcaster.go:75-143 | after as many passes as attempts are left, nothing is pending |
| Broadcast.EventKeepsClosed | internal/broadcaster/broadcaster.go:179-197 | a closed broadcast has nothing pending, through every event |
| Broadcast.DoneStaysDone | internal/store/store.go:1646-1686 | done stays done, and then total = sent + failed |
| Broadcast.CountsAddUp | internal/store/store.go:1539-1557 | total = sent + failed + pending |
| Broadcast.Worker.SendGuarded | internal/broadcaster/broadcaster.go:166-176 | one mailer call, with a panic turned into a refusal |
| Broadcast.Worker.MarkDeliverySent | internal/store/store.go:1618-1627 | the row is sent with its attempts as they were, or nothing changed |
| Broadcast.Worker.MarkDeliveryFailed | internal/store/store.go:1631-1643 | one attempt more, failed at the limit, or nothing changed |
| Broadcast.Worker.Deliver | internal/broadcaster/broadcaster.go:82-139 | what happens to one delivery, with its broadcast read at most once a pass |
| Broadcast.Worker.RunOnce | internal/broadcaster/broadcaster.go:75-143 | a pass is one step of the machine, or changes nothing when the queue cannot be read |
| Broadcast.Worker.FinalizeAll | internal/broadcaster/broadcaster.go:179-197 | closes exactly sending broadcasts without pending rows, as far as reads and writes succeed |
| ScreenScore.SlashesCountedOnce | internal/screen/internal/score/detail.go:167-170 | "//www." occurs no more often than "www.", so the link count is never negative |
| ScreenScore.MergeKeywords | internal/screen/internal/score/detail.go:134-151 | the operator's keywords that are new are added once each, after the built-in ones |
| ScreenScore.AddedIsTheSet | internal/screen/internal/score/detail.go:134-151 | the added keywords are the non-blank, not built-in ones, without repetition |
| ScreenScore.ScanField | internal/screen/internal/score/detail.go:163-219 | one field's signals in order, with the score their sum |
| ScreenScore.DetailWith | internal/screen/internal/score/detail.go:133-230 | all signals in name order, independent of the map's order, with the score their sum |
| ScreenContent.CountFromTheFirst | internal/screen/internal/score/detail.go:163-190 | occurrences are counted from the first, going on behind each |
| ScreenContent.FieldSignalsExactly | internal/screen/internal/score/detail.go:163-219 | a field's signals are exactly: each listed markup and SQL spelling that occurs, six a time; each keyword that occurs, five; a link in a name field, four; gibberish, three |
| ScreenContent.ScoreIsThePoints | internal/screen/internal/score/detail.go:133-230 | the score is what the fields add and two for each link after the first, over the ten built-in keywords and the operator's |
| ScreenContent.VerdictShows | internal/screen/screen.go:280-318 | what each verdict carries: nothing for an allow rule, the rule at the threshold for a block rule, else the content's signals and one more exactly for a third visit |
| ScreenMonotone.DetailIsPositive | internal/screen/internal/score/detail.go:133-230 | every weight is positive, so a positive score has a signal to show |
| ScreenMonotone.MoreFieldsScoreNoLess | internal/screen/internal/score/detail.go:133-230 | another field never lowers the score |
| ScreenMonotone.MoreKeywordsScoreNoLess | internal/screen/internal/score/detail.go:133-230 | more keywords never lower the score, in whatever order and however often they are given |
| ScreenRules.AsciiLowerInPlace | internal/screen/internal/addr/addr.go:148-156 | the in-place loop lowers ASCII letters and nothing else |
| ScreenRules.Canonical | internal/screen/internal/addr/addr.go:117-139 | a reduced address is lower-case and shaped like one |
| ScreenRules.SenderAddress | internal/screen/internal/addr/addr.go:71-90 | none, exactly one, or ambiguous, whatever order the fields are ranged in |
| ScreenRules.SenderAddresses | internal/screen/internal/rules/rules.go:246-255 | the sender's address if there is exactly one sender with one |
| ScreenRules.AllAddresses | internal/screen/internal/rules/rules.go:227-235 | every address in any field |
| ScreenRules.SenderIsAnAddress | internal/screen/internal/rules/rules.go:237-255 | what an allow rule may see a block rule sees too |
| ScreenRules.HostFollowsTheLastAt | internal/screen/internal/rules/rules.go:169-175 | the host is what follows the last @ |
| ScreenRules.DomainIsAnchored | internal/screen/internal/rules/rules.go:176-180 | a longer host matches a domain rule exactly when the domain starts behind a dot |
| ScreenRules.Matches | internal/screen/internal/rules/rules.go:159-219 | the scan over addresses decides exactly whether the rule applies |
| ScreenRules.Match | internal/screen/internal/rules/rules.go:136-157 | the first allow rule for the sender, else the first block rule for any address |
| ScreenRules.FirstOfIsFirst | internal/screen/internal/rules/rules.go:136-157 | the answer fires, nothing before it does, and there is one whenever any fires |
| ScreenMeaning.CanonicalIsTheAddress | internal/screen/internal/addr/addr.go:117-139 | a value's address is what the parser makes of it, or else the value trimmed, in lower-case ASCII, if that has one @, no space and a dot behind the @ |
| ScreenMeaning.CreditedRuleSpeaks | internal/screen/internal/rules/rules.go:136-157 | the rule credited is the first of its kind that speaks, allow before block, and none exactly when none speaks, each type of rule in its own terms |
| ScreenMeaning.CreditedRuleMeansIt | internal/screen/internal/rules/rules.go:159-219 | no range or IP rule is credited for an IP that is blank, unparsed or another, no email or domain rule without an address it is about |
| ScreenMeaning.BlockRulesHold | internal/screen/screen.go:280-305 | without an allow rule for the sender, a block rule for a range, an IP, an address or a domain holds every submission it is written for |
| ScreenMeaning.HeldExactlyWhenSpokenAgainst | internal/screen/screen.go:238-318 | held exactly when no allow rule speaks for the sender and a block rule, a third visit or the score speaks against |
| ScreenRules.Keywords | internal/screen/internal/rules/rules.go:259-279 | the loop collects the block keywords that are not blank |
| ScreenRules.KeywordsAreBlockKeywords | internal/screen/internal/rules/rules.go:259-279 | those and no others |
| ScreenRepeat.KeyIsInjective | internal/screen/internal/repeat/repeat.go:32-34 | form ids without NUL and addresses are recovered from the joined key |
| ScreenRepeat.Tracker.Seen | internal/screen/internal/repeat/repeat.go:32-47 | true only for a pair that came three times, exactly then while all pairs ever seen fit; order and counts hold the same keys once each, at most maxEntries; past the cap, exactly for three visits since the pair was last inserted, which lasts until maxEntries later insertions |
| Screen.ClampThreshold | internal/screen/screen.go:255-276 | always in 1..20, and unchanged exactly when it already was |
| Screen.VerdictIsCoherent | internal/screen/screen.go:278-318 | score is the sum of positive weights, held exactly at or above the threshold, never without a signal |
| Screen.HeldExactlyWhen | internal/screen/screen.go:238-318 | held exactly when no allow rule speaks for the sender and a block rule, a third visit or the content speaks against |
| Screen.MatchedRuleFired | internal/screen/screen.go:280-305 | the credited rule really fired, allow before block; none is credited when none fired |
| Screen.StricterRulesHoldNoLess | internal/screen/screen.go:280-318 | blocking more and allowing less never releases, in whatever order rules are listed |
| Screen.BlockRuleNeverReleases | internal/screen/internal/rules/rules.go:127-157 | a block rule of any type inserted anywhere never releases a held submission |
| Screen.AllowRuleNeverHolds | internal/screen/internal/rules/rules.go:127-157 | an allow rule inserted anywhere never holds an accepted one |
| Screen.FieldReleasesExactlyWhen | internal/screen/internal/rules/rules.go:237-255 | another field releases a held submission exactly by an allow rule for the sender it names |
| Screen.FieldNeverReleases | internal/screen/internal/rules/rules.go:237-255 | and never unless it is the first to claim to be the sender |
| Screen.AFieldCanRelease | internal/screen/internal/rules/rules.go:237-255 | a held submission that a further field does release |
| Screen.Screener.Decide | internal/screen/screen.go:238-253 | counts every submission, then gives a coherent verdict |
| RateLimit.Limiter.Allow | internal/ratelimit/ratelimit.go:62-88 | lazy refill up to burst, then one token for a yes |
| RateLimit.Limiter.Cleanup | internal/ratelimit/ratelimit.go:129-138 | exactly the stale buckets go, whatever order the map is ranged in |
| RateLimit.TokensStayInBounds | internal/ratelimit/ratelimit.go:62-88 | tokens stay between 0 and burst over every run |
| RateLimit.SweptRefinesUnswept | internal/ratelimit/ratelimit.go:129-138 | when a bucket refills within maxAge, sweeps at any points change no answer |
| RateLimit.SweepIsInvisibleExactlyWhen | internal/ratelimit/ratelimit.go:129-138 | and only then: otherwise there is a run with a different answer |
| RateLimit.WindowBound | internal/ratelimit/ratelimit.go:62-88 | when a bucket refills within maxAge, one IP is allowed at most burst + rate * length in any window |
| RateLimit.WindowBoundExactlyWhen | internal/ratelimit/ratelimit.go:62-138 | that bound holds over every window of every ordered run with lawful sweeps exactly when a bucket refills within maxAge |
| RateLimitService.RefusedOnlyWhenSpent | internal/ratelimit/ratelimit.go:62-88 | a call is refused only to an address that, from some point on, was allowed more than burst - 1 + rate * time |
| RateLimitService.CallersWithinTheRateAreServed | internal/ratelimit/ratelimit.go:62-138 | over any run a caller whose calls are a token's time apart is never refused, whatever else is called or swept |
| RateLimitService.CallsAreCounted | internal/ratelimit/ratelimit.go:62-88 | every call is counted for its address, a refused one as throttled too, and no other address is touched |
| RateLimit.SweepOverdraws | internal/ratelimit/ratelimit.go:129-138 | otherwise there is a run that allows twice the burst in less time than one burst takes to refill |
| RateLimit.CleanupIsALawfulSweep | internal/ratelimit/ratelimit.go:129-138 | what cleanup does, reading the clock per bucket, is a lawful sweep of the machine at any time no reading is past |
| LoginGuards.LockedExactlyWhen | internal/ratelimit/ratelimit.go:185-232 | over any run an address is locked exactly if its last failure was at least the maxFails-th since its last success or the last sweep that found it idle, and the lockout since that failure is not over |
| LoginGuards.FailuresAreBounded | internal/ratelimit/ratelimit.go:185-232 | in any window without a success an address fails at most maxFails times, plus one per lockout or maxFails per sweep age, whichever is more, plus once per login that looked before the lock fell |
| LoginGuards.FailuresReachTheBound | internal/ratelimit/ratelimit.go:222-232 | runs that make maxFails failures in every gap longer than the sweep age and the lockout |
| LoginGuards.LoginGuard.RecordFailure | internal/ratelimit/ratelimit.go:185-200 | counts, and locks from the limit on |
| LoginGuards.LoginGuard.RecordSuccess | internal/ratelimit/ratelimit.go:203-208 | forgets the address |
| LoginGuards.LoginGuard.IsLocked | internal/ratelimit/ratelimit.go:211-220 | locked exactly while the lock lasts |
| LoginGuards.LoginGuard.Cleanup | internal/ratelimit/ratelimit.go:222-232 | changes no answer of IsLocked, now or later |
| Quarantine.RowsAreAlwaysOk | internal/store/quarantine.go:174-236 | in every reachable state a held row has a hold time and a signal, an accepted one no hold time, and no breakdown sums to more than its score |
| Quarantine.NotifiedNeverFalls | internal/store/quarantine.go:360-391 | no event clears notified or rewrites score, threshold, form or arrival time |
| Quarantine.NoSubmissionIsEmailedTwice | internal/handler/quarantine.go:298-318 | over any run, emails are at most one, plus one per unrecorded email, plus one per restore that did not wait |
| Quarantine.MailBoundIsReached | internal/handler/quarantine.go:298-318 | for any numbers of unrecorded emails and overlapping restores there is a run that sends just that many and one |
| Quarantine.CyclesSend | internal/store/quarantine.go:360-391 | over any marks and restores, whatever each delivery brings, a row is delivered on every cycle up to the first whose email is recorded, webhook included, and never after it |
| Quarantine.RestoreWithoutWaitingSendsTwice | internal/handler/quarantine.go:298-318 | two overlapping restores send two recorded emails |
| Quarantine.RestoreUndoesMark | internal/store/quarantine.go:330-431 | marking holds a row from now on, unread; restoring gives it back but for the read flag, and the signal stays |
| Quarantine.PurgedExactlyWhen | internal/store/quarantine.go:625-637 | the sweep takes exactly the rows held without a break since before the cutoff; a zero cutoff takes all |
| Quarantine.SignalsExactlyWhenEverHeld | internal/store/quarantine.go:386-391 | a row has signals exactly if it was ever held |
| QuarantineRows.ListedAreDeletedExactlyWhen | internal/store/quarantine.go:475-519 | a batch delete takes exactly the rows that are listed, held and of a form in scope, and leaves all else as it was |
| QuarantineRows.FilteredAreDeletedExactlyWhen | internal/store/quarantine.go:536-558 | a delete by filter takes exactly the held rows of a form in scope that entered before the cutoff, if there is one |
| QuarantineRows.RowEndsExactlyWhen | internal/store/quarantine.go:330-558 | a row goes in a step exactly when it is deleted by name, list or filter, and is held and read exactly as marks, restores and reads leave it |
| QuarantineRows.RowTracesToItsArrival | internal/store/quarantine.go:192-236 | every row goes back to the one arrival of its id, with its form, time, score and threshold |
| QuarantineRows.DeliveryStartsExactlyWhen | internal/handler/quarantine.go:298-318 | a delivery starts exactly for a submission accepted on arrival and for a restored one nobody was notified of |
| QuarantineRows.LandingShows | internal/handler/quarantine.go:298-318 | a landed delivery shows its email and webhook, and notifies the row once a recorded email's mark lands |
| QuarantineRows.NotifyingIsRecorded | internal/store/quarantine.go:455-460 | marking notified does that to that row alone |
| QuarantineRows.MarkNamesItsActor | internal/store/quarantine.go:392-431 | a mark leaves one weightless signal that names its actor |
| QuarantineRows.RestoringReleases | internal/store/quarantine.go:335-358 | a restore gives the row back, unread, without a hold time, and changes nothing else |
| QuarantineRows.WrongSideIsUntouched | internal/store/quarantine.go:330-431 | restoring a row that is not held, or marking one that is, changes nothing |
| QuarantineStore.Submissions.CreateHeldSubmission | internal/store/quarantine.go:192-236 | row and breakdown together, not yet notified, or nothing |
| QuarantineStore.Submissions.CreateSubmission | internal/store/store.go:954-980 | an accepted row counted as notified, or nothing |
| QuarantineStore.Submissions.RestoreSubmission | internal/store/quarantine.go:330-358 | one statement; a miss tells not held from gone |
| QuarantineStore.Submissions.MarkSpam | internal/store/quarantine.go:392-451 | row and manual signal together; a miss tells already held from gone |
| QuarantineStore.Submissions.MarkNotified | internal/store/quarantine.go:455-460 | sets notified, or nothing |
| QuarantineStore.Submissions.DeleteHeld | internal/store/quarantine.go:475-519 | batches of 500 delete and count exactly held, listed and in scope, each once; a failure stops with the total so far |
| QuarantineStore.Submissions.CountHeld | internal/store/quarantine.go:259-276 | the number ClearHeld must be given |
| QuarantineStore.Submissions.DeleteHeldWhere | internal/store/quarantine.go:547-558 | what the filter selects, all of it |
| QuarantineStore.Submissions.ClearHeld | internal/store/quarantine.go:580-608 | all that the filter selects if there are exactly as many as expected, else nothing |
| QuarantineStore.Submissions.DeleteAllHeld | internal/store/quarantine.go:617-623 | exactly the accepted rows are left |
| QuarantineStore.Submissions.PurgeHeldOlderThan | internal/store/quarantine.go:631-637 | what entered quarantine before the cutoff |
| Consent.MacInput | internal/oauth/authorize.go:160-173 | the loop writes the expiry and every field behind its length |
| Consent.EncodedIsInjective | internal/oauth/authorize.go:160-173 | the signed bytes determine expiry, user and every field |
| Consent.ParsesWhatWasFormatted | internal/oauth/authorize.go:117-134 | a written expiry reads back, and holds no dot |
| Consent.HexRoundTrip | internal/oauth/authorize.go:118-138 | a written MAC reads back |
| Consent.VerifiesExactlyWhatItsMacCovers | internal/oauth/authorize.go:123-140 | however a signature is spelled, it verifies for the user, request and expiry its MAC was made for and nothing else |
| Consent.IssuedSignatureVerifiesExactly | internal/oauth/authorize.go:113-140 | an issued signature verifies exactly for its user and request, until ten minutes have passed |
| Consent.FormReadsBackTheSignedRequest | internal/oauth/authorize.go:142-158 | a posted form is accepted exactly when its fields are the signed ones, and gives back that request without scopes |
| ConsentForm.FormIsAcceptedExactlyWhen | internal/oauth/authorize.go:142-158 | a form is accepted exactly within ten minutes, for the signed user, and when the first value under each of the five parameter names is the one that was signed |
| ConsentForm.AcceptedIsPosted | internal/oauth/authorize.go:142-158 | what is accepted is what was posted under those names, without scopes |
| Consent.ZeroSignerFailsClosed | internal/oauth/authorize.go:112-126 | a zero signer signs nothing and verifies nothing |

## Left out

- Handlers, routing, templates, flash cookies, exports, charts and the MCP tools: interface and plumbing over the operations modelled here.
- SMTP and webhooks: a call that may fail or panic; only how often it is made is modelled.
- SQLite, full-text search, bcrypt, HMAC, random numbers, `net/mail`, `net/url`, `net/netip`: libraries, taken as parameters or as stated above.
- internal/urlsafe and internal/oauth/redirect.go: their meaning is in URL parsing.
- ParseAuthorizeRequest, client metadata, redirect URI lists, grant types, `last_used_at`, password and session rows: checks and columns that no property here depends on.
- Rule validation and CheckRules: their content is in hostname, IP and CIDR parsing.
- The gibberish tables: whether a value is flagged, and by which token, is an abstract function.
- The limiter's activity snapshot: a read of the counters.
- Migrations: an open that succeeds serves the file with the same content; what one that fails has committed is arbitrary.
- Goroutines, tickers and locks: each import, transaction, pass and request is one sequential actor; a delivery in the background is a separate event that may land at any later point.
- RateLimit.Limiter.Allow: reals in place of float64, so rounding is not modelled.
- OAuthStore.Store.CreateOAuthClient: does not model the redirect URIs and grant types of the row, because nothing here reads them.
- Restore.StripCredentials: empties the rows; that the VACUUM leaves no old bytes in the file is not modelled, because a table here is its rows.
- OAuthStore.Store.ExchangeAuthCode: the caller's check is a function of the stored consent, without effects of its own.
- RestoreImport.Instance.Import: the upload's schema must declare no table twice up to case, which SQLite guarantees.
