/** From the consent page to the caller's check: what an approval stored is what the check is shown, and
    what it answers is what the exchange does. */
module OAuthApproval {
  import opened Scopes
  import opened OAuthTables
  import opened OAuthInvariant
  import opened OAuthRuns
  import opened OAuthHistory
  import opened OAuthReplay
  import opened OAuthRedeem

  /** The approval itself, with its lists as a column gives them back. */
  predicate Shows(shown: AuthCode, approved: AuthCode) {
    shown.client == approved.client && shown.user == approved.user &&
    shown.redirect == approved.redirect && shown.challenge == approved.challenge && shown.resource == approved.resource &&
    shown.scopes == Entries(Join(approved.scopes)) && shown.forms == Entries(Join(approved.forms))
  }

  lemma ApprovalIsStored(db: Db, approved: AuthCode, now: int)
    requires approved.client in db.clients && approved.user in db.users
    ensures var d, h := Apply(db, Event(Approve(approved), now)), HashToken(db.next);
            h in d.codes && h.of < d.next && Shows(Consent(d.codes[h]), approved) &&
            !d.codes[h].used && d.codes[h].expires == now + 60
  {
    StoredColumnIsStable(approved.scopes);
    StoredColumnIsStable(approved.forms);
    hide Entries, Column, Join;
  }

  lemma ConsentIsKept(a: Db, b: Db, h: Digest)
    requires Evolves(a, b) && h in a.codes && h in b.codes && h.of < a.next
    ensures Consent(b.codes[h]) == Consent(a.codes[h])
  {
    hide Entries;
  }

  /** At every later point of any run at which a code is still there, what the caller's check is shown
      is the approval itself: client, user, redirect URI, challenge and resource unchanged, the lists
      as their columns read. */
  lemma TheCheckIsShownTheApproval(db: Db, run: seq<Event>, i: nat, approved: AuthCode)
    requires Inv(db) && i < |run| && run[i].op == Approve(approved)
    requires approved.client in After(db, run[..i]).clients && approved.user in After(db, run[..i]).users
    ensures var h := HashToken(After(db, run[..i]).next);
            h in After(db, run).codes ==> Shows(Consent(After(db, run).codes[h]), approved)
  {
    hide Apply, Evolves, Shows, Inv, Consent;
    var before := After(db, run[..i]);
    var h := HashToken(before.next);
    assert run[..|run|] == run;
    AfterNext(db, run, i);
    assert run[i] == Event(Approve(approved), run[i].now);
    ApprovalIsStored(before, approved, run[i].now);
    RunEvolves(db, run, i + 1, |run|);
    if h in After(db, run).codes {
      ConsentIsKept(After(db, run[..i + 1]), After(db, run), h);
    }
  }

  lemma AnswerFollowsTheCheck(db: Db, raw: nat, accepted: bool, now: int)
    requires Inv(db) && raw != 0
    ensures var h := HashToken(raw);
            h in db.codes && !db.codes[h].used && now < db.codes[h].expires ==>
              (Exchange(db, raw, accepted, now).1.Issued? <==> accepted) &&
              (Exchange(db, raw, accepted, now).1.Rejected? <==> !accepted)
  {
    hide Entries, Column, IssueGrant, Mint, ColumnsNormal;
    ExchangeKeeps(db, raw, accepted, now);
  }

  /** So, over any run: a code that nobody has presented in time, whose client and user are there, and
      which is presented before its sixty seconds are over, is exchanged exactly when the caller's
      check accepts what was approved, and otherwise rejected. */
  lemma IssuedExactlyWhenTheApprovalIsAccepted(db: Db, run: seq<Event>, i: nat, approved: AuthCode, accept: AuthCode -> bool, now: int)
    requires Inv(db) && i < |run| && run[i].op == Approve(approved)
    requires approved.client in After(db, run[..i]).clients && approved.user in After(db, run[..i]).users
    requires var raw, expires := After(db, run[..i]).next, run[i].now + 60;
             now < expires && SweptBefore(run, i + 1, expires + SPENT_CODE_RETENTION) &&
             !Presented(run, i + 1, raw, expires) &&
             approved.client in After(db, run).clients && approved.user in After(db, run).users
    ensures var raw, end := After(db, run[..i]).next, After(db, run);
            HashToken(raw) in end.codes &&
            var shown := Consent(end.codes[HashToken(raw)]);
            var answer := Exchange(end, raw, accept(shown), now).1;
            Shows(shown, approved) &&
            (answer.Issued? <==> accept(shown)) && (answer.Rejected? <==> !accept(shown))
  {
    hide Apply, Evolves, Shows, Inv, Consent, Exchange, Presented;
    var before := After(db, run[..i]);
    var raw, end := before.next, After(db, run);
    AfterNext(db, run, i);
    InvariantOverRuns(db, run[..i]);
    NextIsPositive(before);
    assert run[i] == Event(Approve(approved), run[i].now);
    ApprovalIsStored(before, approved, run[i].now);
    ShownOwners(After(db, run[..i + 1]), HashToken(raw), approved);
    UnspentStays(db, run, i + 1, raw);
    InvariantOverRuns(db, run);
    TheCheckIsShownTheApproval(db, run, i, approved);
    AnswerFollowsTheCheck(end, raw, accept(Consent(end.codes[HashToken(raw)])), now);
  }

  lemma ShownOwners(db: Db, h: Digest, approved: AuthCode)
    requires h in db.codes && Shows(Consent(db.codes[h]), approved)
    ensures db.codes[h].client == approved.client && db.codes[h].user == approved.user
  {
    hide Entries;
  }

  /** A list of clean entries is shown as it was approved. */
  lemma CleanApprovalIsShownAsItIs(shown: AuthCode, approved: AuthCode)
    requires Shows(shown, approved) && AllClean(approved.scopes) && AllClean(approved.forms)
    ensures shown == approved
  {
    CleanListRoundTrip(approved.scopes);
    CleanListRoundTrip(approved.forms);
    hide Entries, Join;
  }
}
