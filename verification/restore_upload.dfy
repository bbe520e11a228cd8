/** What may be swapped in: a database of this program's, without its secrets. */
module RestoreUpload {
  import opened Basics
  import opened Restore

  /** A table's name, with its ASCII letters in either case. */
  predicate Spells(name: string, word: string) {
    |name| == |word| &&
    forall i :: 0 <= i < |name| ==>
      name[i] == word[i] || ('a' <= word[i] <= 'z' && name[i] as int == word[i] as int - 32)
  }

  predicate Carries(db: Database, word: string) {
    exists t :: t in db && Spells(t, word)
  }

  predicate IsOurs(db: Database) {
    Carries(db, "users") && Carries(db, "forms") && Carries(db, "submissions")
  }

  /** The six tables whose rows let someone in. */
  predicate IsSecret(t: string) {
    Spells(t, "api_tokens") || Spells(t, "sessions") || Spells(t, "oauth_clients") || Spells(t, "oauth_auth_codes") ||
    Spells(t, "oauth_grants") || Spells(t, "oauth_refresh_tokens")
  }

  predicate Plain(word: string) {
    forall i :: 0 <= i < |word| ==> 'a' <= word[i] <= 'z' || word[i] == '_'
  }

  lemma SpellsIsSameName(name: string, word: string)
    requires Plain(word)
    ensures SameName(name, word) <==> Spells(name, word)
  {
    forall c: char, d: char | 'a' <= d <= 'z' || d == '_'
      ensures Lower(c) == Lower(d) <==> c == d || ('a' <= d <= 'z' && c as int == d as int - 32)
    {}
  }

  lemma RequiredTablesAreSpelled(db: Database)
    ensures HasRequiredTables(db) <==> IsOurs(db)
  {
    forall t | t in db
      ensures SameName(t, "users") <==> Spells(t, "users")
      ensures SameName(t, "forms") <==> Spells(t, "forms")
      ensures SameName(t, "submissions") <==> Spells(t, "submissions")
    {
      SpellsIsSameName(t, "users");
      SpellsIsSameName(t, "forms");
      SpellsIsSameName(t, "submissions");
    }
    assert REQUIRED_TABLES[0] == "users" && REQUIRED_TABLES[1] == "forms" && REQUIRED_TABLES[2] == "submissions";
    hide Spells, SameName;
    if HasRequiredTables(db) {
      assert Declares(db, REQUIRED_TABLES[0]) && Declares(db, REQUIRED_TABLES[1]) && Declares(db, REQUIRED_TABLES[2]);
    }
  }

  lemma SecretsAreSpelled(t: string)
    ensures IsCredential(t) <==> IsSecret(t)
  {
    hide Spells, SameName, Plain;
    PlainNames();
    SpellsIsSameName(t, "api_tokens");
    SpellsIsSameName(t, "sessions");
    SpellsIsSameName(t, "oauth_clients");
    SpellsIsSameName(t, "oauth_auth_codes");
    SpellsIsSameName(t, "oauth_grants");
    SpellsIsSameName(t, "oauth_refresh_tokens");
    assert CREDENTIAL_TABLES[0] == "api_tokens" && CREDENTIAL_TABLES[1] == "sessions" && CREDENTIAL_TABLES[2] == "oauth_clients";
    assert CREDENTIAL_TABLES[3] == "oauth_auth_codes" && CREDENTIAL_TABLES[4] == "oauth_grants";
    assert CREDENTIAL_TABLES[5] == "oauth_refresh_tokens";
    if IsCredential(t) {
      var i :| 0 <= i < |CREDENTIAL_TABLES| && SameName(t, CREDENTIAL_TABLES[i]);
      assert i < 6;
    }
  }

  lemma PlainNames()
    ensures Plain("api_tokens") && Plain("sessions") && Plain("oauth_clients") && Plain("oauth_auth_codes")
    ensures Plain("oauth_grants") && Plain("oauth_refresh_tokens")
  {}

  /** Stripping empties exactly the six tables, under whatever spelling, and changes no other row of any
      table. */
  lemma StripTakesTheSecretsAlone(db: Database)
    ensures Strip(db).Keys == db.Keys
    ensures forall t :: t in db ==> Strip(db)[t] == if IsSecret(t) then {} else db[t]
  {
    hide IsCredential, IsSecret;
    forall t | t in db ensures IsCredential(t) <==> IsSecret(t) {
      SecretsAreSpelled(t);
    }
  }

  lemma StripKeepsOurs(db: Database)
    ensures IsOurs(Strip(db)) <==> IsOurs(db)
  {
    StripTakesTheSecretsAlone(db);
    hide Strip, Spells, IsSecret;
    assert forall t :: t in Strip(db) <==> t in db;
  }

  // ---- every run

  /** A database of ours with nothing in it that lets anyone in. */
  predicate Swappable(db: Database) {
    IsOurs(db) && forall t :: t in db && IsSecret(t) ==> db[t] == {}
  }

  /** The phases in which the upload has been checked and stripped. */
  predicate PastTheChecks(pc: Pc) {
    pc.Looking? || pc.Flushing? || pc.Closing? || Swaps(pc)
  }

  predicate Checked(w: World) {
    (w.pc == Stripping ==> w.disk.upload.Some? && IsOurs(w.disk.upload.value)) &&
    (PastTheChecks(w.pc) ==> Swappable(w.notes.incoming))
  }

  lemma StrippedIsSwappable(db: Database)
    requires IsOurs(db)
    ensures Swappable(Strip(db))
  {
    StripTakesTheSecretsAlone(db);
    StripKeepsOurs(db);
    hide IsOurs, IsSecret, Strip;
  }

  lemma StepKeepsChecked(w: World, k: Luck)
    requires Checked(w)
    ensures Checked(Step(w, k))
  {
    hide IsOurs, Swappable, HasRequiredTables, Checkpoint, OpenFails, Served, Strip;
    if w.disk.upload.Some? {
      RequiredTablesAreSpelled(w.disk.upload.value);
      if IsOurs(w.disk.upload.value) {
        StrippedIsSwappable(w.disk.upload.value);
      }
    }
  }

  lemma MoveKeepsChecked(w: World, m: Move)
    requires Checked(w)
    ensures Checked(Apply(w, m))
  {
    hide IsOurs, Swappable, Step, Checkpoint, OpenFails;
    match m
    case Go(k) => StepKeepsChecked(w, k);
    case Flush(k) => CheckpointKeepsServed(w.disk, k);
    case _ =>
  }

  /** Over any imports, requests, crashes and restarts: once an import is past its checks, what it is
      about to swap in declares users, forms and submissions and has no row in the six tables. */
  lemma {:induction false} OnlyOurDatabasesAreSwappedIn(w: World, moves: seq<Move>)
    requires Checked(w)
    ensures Checked(After(w, moves))
  {
    hide Apply, Checked;
    if moves != [] {
      OnlyOurDatabasesAreSwappedIn(w, moves[..|moves| - 1]);
      MoveKeepsChecked(After(w, moves[..|moves| - 1]), moves[|moves| - 1]);
    }
  }

  // ---- the checks, one by one

  /** When an import goes past each of its checks, and what it answers when it does not: that the file
      is at fault when a table is missing, and that it is not for a leftover or a log that does not
      flush. */
  lemma ChecksPassExactlyWhen(w: World, k: Luck)
    requires w.pc == Validating || w.pc == Looking || w.pc == Flushing
    ensures Step(w, k).pc != Idle <==>
            match w.pc
            case Validating => k.ok && w.disk.upload.Some? && IsOurs(w.disk.upload.value)
            case Looking => !k.unknown && w.disk.parked == None
            case _ => w.open && k.ok && k.flushed >= |Frames(w.disk)|
    ensures Step(w, k).pc == Idle ==>
              Step(w, k).result == Rejected(if w.pc == Validating then !k.ok && k.fault else true)
    ensures w.pc != Flushing ==> Step(w, k).disk == w.disk && Step(w, k).open == w.open
  {
    hide IsOurs, HasRequiredTables;
    if w.disk.upload.Some? {
      RequiredTablesAreSpelled(w.disk.upload.value);
    }
  }

  /** When the swap goes on to its next call, and when the way back does. */
  lemma SwapGoesOnExactlyWhen(w: World, k: Luck)
    ensures w.pc == ClearingWal ==> Step(w, k).pc == if k.unknown || w.disk.wal == None || k.ok then Parking else Checking
    ensures w.pc == Parking ==> Step(w, k).pc == if k.ok && w.disk.main != None then Swapping else Checking
    ensures w.pc == Swapping ==> Step(w, k).pc == if k.ok && w.disk.upload != None then Opening else MovingBack
    ensures w.pc == Opening ==> Step(w, k).pc == if k.ok then Discarding else MovingBack
    ensures w.pc == MovingBack ==>
              if k.ok && w.disk.parked != None then Step(w, k).pc == Checking else Step(w, k).pc == Idle && Step(w, k).result == Unavailable
    ensures w.pc == Checking ==>
              if !k.unknown && w.disk.main != None then Step(w, k).pc == Reopening else Step(w, k).pc == Idle && Step(w, k).result == Unavailable
    ensures w.pc == Reopening ==> Step(w, k).pc == Idle && Step(w, k).result == if k.ok then RolledBack else Unavailable
  {
    hide OpenFails, Checkpoint;
  }

  // ---- a restore that meets no trouble

  predicate Good(k: Luck) {
    k.ok && !k.unknown
  }

  function Steps(w: World, k: Luck, n: nat): World {
    if n == 0 then w else Step(Steps(w, k, n - 1), k)
  }

  /** With every call as it should be, a valid upload and nothing left over, an import ends after its
      eleven calls: it answers nil, serves exactly the stripped upload, and leaves nothing behind. */
  lemma GoodLuckRestores(w: World, k: Luck)
    requires w.pc == Idle && w.open && w.disk.main.Some? && w.disk.parked == None
    requires w.disk.upload.Some? && IsOurs(w.disk.upload.value) && Good(k) && k.flushed >= |Frames(w.disk)|
    ensures var e := Steps(w, k, 11);
            e.pc == Idle && e.result == Restored && e.open &&
            e.disk == Disk(Some(Strip(w.disk.upload.value)), None, None, None)
  {
    hide IsOurs, HasRequiredTables, Strip;
    RequiredTablesAreSpelled(w.disk.upload.value);
    hide Steps, Step;
    var closing := GoodLuckCloses(w, k);
    GoodLuckSwaps(closing, k);
    EleventhStep(w, k);
  }

  lemma GoodLuckSwaps(w: World, k: Luck)
    requires w.pc == Closing && w.open && w.disk.main.Some? && w.disk.parked == None && w.disk.upload.Some? && Good(k)
    ensures var e := Step(Step(Step(Step(Step(Step(w, k), k), k), k), k), k);
            e.pc == Idle && e.result == Restored && e.open && e.disk == Disk(w.disk.upload, None, None, None)
  {
    var swapping := Step(Step(Step(w, k), k), k);
    assert swapping.pc == Swapping && swapping.disk.wal == None && swapping.disk.upload == w.disk.upload;
  }

  lemma GoodLuckCloses(w: World, k: Luck) returns (closing: World)
    requires w.pc == Idle && w.open && w.disk.main.Some? && w.disk.parked == None
    requires w.disk.upload.Some? && HasRequiredTables(w.disk.upload.value) && Good(k) && k.flushed >= |Frames(w.disk)|
    ensures closing == Step(Step(Step(Step(Step(w, k), k), k), k), k)
    ensures closing.pc == Closing && closing.open && closing.disk.main.Some? && closing.disk.parked == None
    ensures closing.disk.upload == Some(Strip(w.disk.upload.value))
  {
    hide HasRequiredTables, Strip;
    var flushing := Step(Step(Step(Step(w, k), k), k), k);
    assert flushing.pc == Flushing && flushing.disk == w.disk.(upload := Some(Strip(w.disk.upload.value))) && flushing.open;
    CheckpointKeepsServed(flushing.disk, k);
    closing := Step(flushing, k);
  }

  lemma EleventhStep(w: World, k: Luck)
    ensures Steps(w, k, 11) == Step(Step(Step(Step(Step(Step(Step(Step(Step(Step(Step(w, k), k), k), k), k), k), k), k), k), k), k)
  {
    hide Step;
    assert Steps(w, k, 1) == Step(w, k);
    assert Steps(w, k, 3) == Step(Step(Step(w, k), k), k);
    assert Steps(w, k, 5) == Step(Step(Steps(w, k, 3), k), k);
    assert Steps(w, k, 7) == Step(Step(Steps(w, k, 5), k), k);
    assert Steps(w, k, 9) == Step(Step(Steps(w, k, 7), k), k);
    assert Steps(w, k, 11) == Step(Step(Steps(w, k, 9), k), k);
  }
}
