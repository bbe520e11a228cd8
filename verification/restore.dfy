/** Replacing the live database by an uploaded one: check, strip, flush, close, park, swap, reopen,
    and the way back from every failure.

    The machine below runs one call at a time. Every call may fail, requests may commit while the
    handle is open, and the process may die between any two calls and be started again. */
module Restore {
  import opened Basics

  /** A database's content: the rows of each table, by the table's name as declared. */
  type Database = map<string, set<nat>>

  const CREDENTIAL_TABLES: seq<string> :=
    ["api_tokens", "sessions", "oauth_clients", "oauth_auth_codes", "oauth_grants", "oauth_refresh_tokens"]

  const REQUIRED_TABLES: seq<string> := ["users", "forms", "submissions"]

  /** What a start makes of a missing file: the schema and the default account. */
  const SEEDED: Database := map["users" := {0}, "forms" := {}, "submissions" := {}]

  // ---- stripping credentials

  function Lower(c: char): char {
    if 'A' <= c <= 'Z' then c + ('a' - 'A') else c
  }

  /** COLLATE NOCASE. */
  predicate SameName(a: string, b: string) {
    |a| == |b| && forall i :: 0 <= i < |a| ==> Lower(a[i]) == Lower(b[i])
  }

  predicate IsCredential(table: string) {
    exists i :: 0 <= i < |CREDENTIAL_TABLES| && SameName(table, CREDENTIAL_TABLES[i])
  }

  /** SQLite resolves table names case-insensitively, so no schema declares one twice. */
  predicate NamesDistinct(db: Database) {
    forall a, b :: a in db && b in db && SameName(a, b) ==> a == b
  }

  function Strip(db: Database): Database {
    map t | t in db :: if IsCredential(t) then {} else db[t]
  }

  predicate Declares(db: Database, table: string) {
    exists t :: t in db && SameName(t, table)
  }

  predicate HasRequiredTables(db: Database) {
    forall i :: 0 <= i < |REQUIRED_TABLES| ==> Declares(db, REQUIRED_TABLES[i])
  }

  /** stripCredentials: one DELETE per credential table that is present, under whatever spelling. */
  method StripCredentials(db: Database) returns (ok: bool, stripped: Database)
    requires NamesDistinct(db)
    ensures ok ==> stripped == Strip(db)
    ensures NamesDistinct(stripped)
  {
    stripped := db;
    ok := *;
    if !ok { return; }
    for i := 0 to |CREDENTIAL_TABLES|
      invariant stripped.Keys == db.Keys
      invariant forall t :: t in db ==>
        stripped[t] == if exists j :: 0 <= j < i && SameName(t, CREDENTIAL_TABLES[j]) then {} else db[t]
    {
      if present :| present in stripped && SameName(present, CREDENTIAL_TABLES[i]) {
        ok := *;
        if !ok { return; }
        stripped := stripped[present := {}];
      }
    }
    assert forall t :: t in db ==> stripped[t] == Strip(db)[t];
    ok := *;
  }

  /** Export: a copy of what the handle serves, stripped; the live database is not touched. */
  method Export(live: Database) returns (ok: bool, snapshot: Database)
    requires NamesDistinct(live)
    ensures ok ==> snapshot == Strip(live)
  {
    snapshot := live;
    ok := *;
    if ok {
      ok, snapshot := StripCredentials(snapshot);
    }
  }

  /** A stripped database carries no credential row under any spelling, every other table is as it
      was, and stripping a snapshot again on the way in changes nothing. */
  lemma StripRemovesCredentialsOnly(db: Database, table: string)
    requires table in db
    ensures IsCredential(table) ==> Strip(db)[table] == {}
    ensures !IsCredential(table) ==> Strip(db)[table] == db[table]
    ensures Strip(Strip(db)) == Strip(db)
    ensures HasRequiredTables(db) ==> HasRequiredTables(Strip(db))
  {
    if HasRequiredTables(db) {
      forall i | 0 <= i < |REQUIRED_TABLES|
        ensures Declares(Strip(db), REQUIRED_TABLES[i])
      {
        var t :| t in db && SameName(t, REQUIRED_TABLES[i]);
        assert t in Strip(db);
      }
    }
  }

  // ---- the disk and the machine

  /** dbPath, dbPath-wal, dbPath.rollback and the staged upload. A write-ahead log holds one whole
      image per committed frame; the last one is what a reader sees. */
  datatype Disk = Disk(main: Option<Database>, wal: Option<seq<Database>>, parked: Option<Database>, upload: Option<Database>)

  function Frames(d: Disk): seq<Database> {
    if d.wal.Some? then d.wal.value else []
  }

  /** What a handle opened on dbPath reads. */
  function Served(d: Disk): Option<Database> {
    if d.main.Some? && Frames(d) != [] then Some(Frames(d)[|Frames(d)| - 1]) else d.main
  }

  /** What a main file serves with those frames beside it. */
  function Replayed(file: Option<Database>, frames: seq<Database>): Option<Database> {
    if frames == [] then file else Some(frames[|frames| - 1])
  }

  /** What dbPath serves once a parked file has been moved back to it, as the error asks for. */
  function AtHand(d: Disk): Option<Database> {
    if d.parked.Some? then Served(d.(main := d.parked)) else Served(d)
  }

  /** The replacement and nothing replayed over it. */
  predicate CleanlyServes(d: Disk, db: Database) {
    d.main == Some(db) && Frames(d) == []
  }

  /** The program counter of Import; Idle between imports, Down while there is no process. */
  datatype Pc =
    | Idle | Down
    | Validating | Stripping | Looking | Flushing | Closing
    | ClearingWal | Parking | Swapping | Opening | Discarding
    | MovingBack | Checking | Reopening

  datatype Result = Nothing | Restored | Rejected(machineFault: bool) | RolledBack | Unavailable

  /** History: original is what the handle served when it was closed, settled whether the main file
      alone held it then, incoming the stripped upload, left whether the close left frames in the log,
      blind whether the look at the log before its removal failed. wiped is whether the close after a
      failed open of the replacement emptied the log, stray what failed opens have put in the way of the
      original: frames that are replayed over it. */
  datatype Notes = Notes(original: Option<Database>, settled: bool, incoming: Database, left: bool, blind: bool,
                         wiped: bool, stray: seq<Database>)

  datatype World = World(pc: Pc, disk: Disk, open: bool, result: Result, notes: Notes)

  /** How one call goes: ok, or failed; unknown for a Stat that answers neither yes nor no; fault for
      an error SQLite blames on the machine; flushed, reset and torn for a checkpoint; migrated for
      what an open had committed, migration by migration, before it failed. */
  datatype Luck = Luck(ok: bool, unknown: bool, fault: bool, flushed: nat, reset: bool, torn: Database, migrated: seq<Database>)

  /** A checkpoint that flushed so many frames. Short of all of them the main file is of no use
      without its log. */
  function Checkpoint(d: Disk, k: Luck): Disk {
    var frames := Frames(d);
    if frames == [] then d
    else if k.flushed < |frames| then d.(main := Some(k.torn))
    else d.(main := Some(frames[|frames| - 1]), wal := if k.reset then Some([]) else d.wal)
  }

  /** Reopen, failing: the migrations committed so far are in the log, and the close whose error
      nobody looks at may checkpoint it, in part, in full or not at all. */
  function OpenFails(d: Disk, k: Luck): Disk {
    Checkpoint(if k.migrated == [] then d else d.(wal := Some(Frames(d) + k.migrated)), k)
  }

  /** That close emptied the log. */
  predicate Wipes(d: Disk, k: Luck) {
    k.reset && k.flushed >= |Frames(d)| + |k.migrated|
  }

  function Reject(w: World, fault: bool): World {
    w.(pc := Idle, result := Rejected(fault))
  }

  /** Up to the close. */
  function PrepareStep(w: World, k: Luck): World {
    var d := w.disk;
    match w.pc
    case Validating =>
      // A table that is missing carries no code of SQLite's, so it is the file's fault.
      if k.ok && d.upload.Some? && HasRequiredTables(d.upload.value) then w.(pc := Stripping) else Reject(w, !k.ok && k.fault)
    case Stripping =>
      if k.ok && d.upload.Some?
      then w.(pc := Looking, notes := w.notes.(incoming := Strip(d.upload.value)), disk := d.(upload := Some(Strip(d.upload.value))))
      else Reject(w, k.fault)
    case Looking =>
      if k.unknown || d.parked.Some? then Reject(w, true) else w.(pc := Flushing)
    case Flushing =>
      if !w.open || !k.ok then Reject(w, true)
      else
        var short := Frames(d) != [] && k.flushed < |Frames(d)|;
        var flushed := w.(disk := Checkpoint(d, k));
        if short then Reject(flushed, true) else flushed.(pc := Closing)
    case _ =>
      // The last connection to close may checkpoint and drop the log itself.
      var closed := if k.reset then d.(main := Served(d), wal := None) else d;
      w.(pc := ClearingWal, open := false, disk := closed,
         notes := w.notes.(original := Served(d), settled := closed.main == Served(d), left := Frames(closed) != [],
                           wiped := false, stray := []))
  }

  /** The swap itself. */
  function SwapStep(w: World, k: Luck): World {
    var d := w.disk;
    match w.pc
    case ClearingWal =>
      var looked := w.(notes := w.notes.(blind := k.unknown));
      if k.unknown || d.wal.None? then looked.(pc := Parking)
      else if k.ok then looked.(pc := Parking, disk := d.(wal := None))
      else looked.(pc := Checking)
    case Parking =>
      if k.ok && d.main.Some? then w.(pc := Swapping, disk := d.(main := None, parked := d.main))
      else w.(pc := Checking)
    case Swapping =>
      if k.ok && d.upload.Some? then w.(pc := Opening, disk := d.(main := d.upload, upload := None))
      else w.(pc := MovingBack)
    case Opening =>
      if k.ok then w.(pc := Discarding, open := true)
      else w.(pc := MovingBack, disk := OpenFails(d, k),
              notes := w.notes.(wiped := Wipes(d, k), stray := if Wipes(d, k) then [] else k.migrated))
    case _ =>
      w.(pc := Idle, result := Restored, disk := if k.ok then d.(parked := None) else d)
  }

  /** The way back. */
  function BackStep(w: World, k: Luck): World {
    var d := w.disk;
    match w.pc
    case MovingBack =>
      if k.ok && d.parked.Some? then w.(pc := Checking, disk := d.(main := d.parked, parked := None))
      else w.(pc := Idle, result := Unavailable)
    case Checking =>
      if k.unknown || d.main.None? then w.(pc := Idle, result := Unavailable) else w.(pc := Reopening)
    case _ =>
      if k.ok then w.(pc := Idle, open := true, result := RolledBack)
      else w.(pc := Idle, result := Unavailable, disk := OpenFails(d, k),
              notes := w.notes.(stray := w.notes.stray + k.migrated))
  }

  /** One call of Import. */
  function Step(w: World, k: Luck): World {
    if w.pc == Idle then w.(pc := Validating)
    else if w.pc == Down then w
    else if BeforeClose(w.pc) then PrepareStep(w, k)
    else if Swaps(w.pc) then SwapStep(w, k)
    else BackStep(w, k)
  }

  /** The phases in which this process has not yet decided to swap. */
  predicate BeforeClose(pc: Pc) {
    pc.Validating? || pc.Stripping? || pc.Looking? || pc.Flushing? || pc.Closing?
  }

  predicate Swaps(pc: Pc) {
    pc.ClearingWal? || pc.Parking? || pc.Swapping? || pc.Opening? || pc.Discarding?
  }

  /** What else happens around an import. Start deletes a log whose main file is missing, as SQLite
      does, makes an empty database there, and sweeps staged uploads. */
  datatype Move =
    | Go(luck: Luck)
    | Commit(db: Database)
    | Flush(luck: Luck)
    | Stage(db: Database)
    | Crash
    | Start(luck: Luck)

  function Apply(w: World, m: Move): World {
    var d := w.disk;
    match m
    case Go(k) => Step(w, k)
    case Commit(db) => if w.open then w.(disk := d.(wal := Some(Frames(d) + [db]))) else w
    case Flush(k) => if w.open then w.(disk := Checkpoint(d, k)) else w
    case Stage(db) => if w.pc == Idle then w.(disk := d.(upload := Some(db))) else w
    case Crash => w.(pc := Down, open := false)
    case Start(k) =>
      if w.pc != Down then w
      else
        var found := if d.main.Some? then d.(upload := None) else d.(main := Some(SEEDED), wal := None, upload := None);
        if k.ok then w.(pc := Idle, open := true, disk := found, result := Nothing) else w.(disk := OpenFails(found, k))
  }

  function After(w: World, moves: seq<Move>): World {
    if moves == [] then w else Apply(After(w, moves[..|moves| - 1]), moves[|moves| - 1])
  }

  // ---- the invariant

  /** The phases in which this import has closed the handle and not reopened it. */
  predicate HandleDown(pc: Pc) {
    pc.ClearingWal? || pc.Parking? || pc.Swapping? || pc.Opening? || pc.MovingBack? || pc.Checking? || pc.Reopening?
  }

  /** The original content is on disk: readable at dbPath, or parked. */
  predicate Kept(d: Disk, db: Option<Database>) {
    Served(d) == db || d.parked == db
  }

  /** What failed opens left in the log, if anything, ends in the original's content. */
  predicate Spares(stray: seq<Database>, original: Option<Database>) {
    stray == [] || Some(stray[|stray| - 1]) == original
  }

  /** The original is on disk exactly if it is parked or spared, and can be had, by moving a parked
      file back if there is one, exactly if it is spared. */
  predicate Traced(d: Disk, stray: seq<Database>, original: Option<Database>) {
    (Kept(d, original) <==> d.parked.Some? || Spares(stray, original)) &&
    (AtHand(d) == original <==> Spares(stray, original))
  }

  /** While the handle is down. */
  predicate Holding(w: World) {
    var d := w.disk;
    w.notes.original.Some? &&
    (w.notes.stray != [] ==> Frames(d) != []) &&
    (Frames(d) != [] ==> Some(Frames(d)[|Frames(d)| - 1]) == Replayed(w.notes.original, w.notes.stray)) &&
    match w.pc
    case ClearingWal => d.main == w.notes.original && d.parked == None
    case Parking => d.main == w.notes.original && d.parked == None
    case Swapping => d.main == None && d.parked == w.notes.original
    case Opening => d.main == Some(w.notes.incoming) && d.parked == w.notes.original
    case MovingBack => d.parked == w.notes.original
    case _ => d.main == w.notes.original && d.parked == None
  }

  predicate Inv(w: World) {
    (w.open ==> w.disk.main.Some? && !HandleDown(w.pc) && w.pc != Down) &&
    (w.pc == Closing || w.pc == Discarding ==> w.open) &&
    ((w.pc.Flushing? || w.pc.Closing? || w.pc.ClearingWal? || w.pc.Parking?) ==> w.disk.parked == None) &&
    ((w.pc.Looking? || w.pc.Flushing? || w.pc.Closing? || w.pc.ClearingWal? || w.pc.Parking? || w.pc.Swapping?) ==> w.disk.upload == Some(w.notes.incoming)) &&
    ((w.pc.ClearingWal? || w.pc.Parking?) ==> w.notes.original.Some? && (w.notes.settled <==> w.disk.main == w.notes.original)) &&
    (w.pc == ClearingWal ==> (w.notes.left <==> Frames(w.disk) != [])) &&
    ((w.pc.Parking? || w.pc.Swapping? || w.pc.Opening?) ==> (w.notes.left && w.notes.blind <==> Frames(w.disk) != [])) &&
    ((Swaps(w.pc) && !w.pc.Discarding?) ==> w.notes.stray == []) &&
    (w.pc == Opening ==> w.disk.main == Some(w.notes.incoming)) &&
    (w.pc == Reopening ==> w.disk.main.Some?) &&
    (w.pc == Discarding && w.notes.settled ==> w.notes.original.Some? && w.disk.parked == w.notes.original) &&
    (HandleDown(w.pc) && w.notes.settled ==> Holding(w))
  }

  /** A checkpoint, however it ends, changes nothing a reader sees. */
  lemma CheckpointKeepsServed(d: Disk, k: Luck)
    ensures d.main.Some? ==> Served(Checkpoint(d, k)) == Served(d) && Checkpoint(d, k).main.Some?
    ensures Checkpoint(d, k).parked == d.parked && Checkpoint(d, k).upload == d.upload
    ensures d.main.Some? && k.flushed >= |Frames(d)| ==> Checkpoint(d, k).main == Served(d)
  {}

  /** A failed open leaves its last migration to be read, and in the log all it found there and all it
      committed, unless the close after it emptied the log. */
  lemma OpenFailsLeaves(d: Disk, k: Luck)
    ensures OpenFails(d, k).parked == d.parked && OpenFails(d, k).upload == d.upload
    ensures Frames(OpenFails(d, k)) == if Wipes(d, k) then [] else Frames(d) + k.migrated
    ensures d.main.Some? ==> OpenFails(d, k).main.Some? && Served(OpenFails(d, k)) == Replayed(Served(d), k.migrated)
  {
    var found := if k.migrated == [] then d else d.(wal := Some(Frames(d) + k.migrated));
    assert Frames(found) == Frames(d) + k.migrated;
    CheckpointKeepsServed(found, k);
  }

  lemma ClosingKeepsInv(w: World, k: Luck)
    requires Inv(w) && w.pc == Closing
    ensures Inv(PrepareStep(w, k))
  {
    hide Strip, HasRequiredTables, Checkpoint;
  }

  lemma FlushingKeepsInv(w: World, k: Luck)
    requires Inv(w) && w.pc == Flushing
    ensures Inv(PrepareStep(w, k))
  {
    hide Strip, HasRequiredTables, Checkpoint, Served, Holding, Frames;
    CheckpointKeepsServed(w.disk, k);
  }

  lemma PrepareStepKeepsInv(w: World, k: Luck)
    requires Inv(w) && BeforeClose(w.pc)
    ensures Inv(PrepareStep(w, k))
  {
    if w.pc == Closing {
      ClosingKeepsInv(w, k);
    } else if w.pc == Flushing {
      FlushingKeepsInv(w, k);
    } else {
      hide Strip, HasRequiredTables, Checkpoint, Served, Holding, Frames;
    }
  }

  lemma SwapStepKeepsInv(w: World, k: Luck)
    requires Inv(w) && Swaps(w.pc)
    ensures Inv(SwapStep(w, k))
  {
    if w.pc == Opening {
      OpeningKeepsInv(w, k);
    } else {
      hide OpenFails, Checkpoint, Served;
    }
  }

  lemma OpeningKeepsInv(w: World, k: Luck)
    requires Inv(w) && w.pc == Opening
    ensures Inv(SwapStep(w, k))
  {
    OpenFailsLeaves(w.disk, k);
    hide OpenFails, Checkpoint, Served;
  }

  lemma BackStepKeepsInv(w: World, k: Luck)
    requires Inv(w) && HandleDown(w.pc) && !Swaps(w.pc)
    ensures Inv(BackStep(w, k))
  {
    OpenFailsLeaves(w.disk, k);
    hide Served, OpenFails;
  }

  lemma StepKeepsInv(w: World, k: Luck)
    requires Inv(w)
    ensures Inv(Step(w, k))
  {
    hide PrepareStep, SwapStep, BackStep, Holding, Served, Frames;
    if BeforeClose(w.pc) {
      PrepareStepKeepsInv(w, k);
    } else if Swaps(w.pc) {
      SwapStepKeepsInv(w, k);
    } else if HandleDown(w.pc) {
      BackStepKeepsInv(w, k);
    }
  }

  lemma RequestKeepsInv(w: World, m: Move)
    requires Inv(w) && (m.Commit? || m.Flush? || m.Stage?)
    ensures Inv(Apply(w, m))
  {}

  lemma RestartKeepsInv(w: World, m: Move)
    requires Inv(w) && (m.Crash? || m.Start?)
    ensures Inv(Apply(w, m))
  {}

  lemma MoveKeepsInv(w: World, m: Move)
    requires Inv(w)
    ensures Inv(Apply(w, m))
  {
    hide Inv, Step;
    match m
    case Go(k) => StepKeepsInv(w, k);
    case Commit(_) => RequestKeepsInv(w, m);
    case Flush(_) => RequestKeepsInv(w, m);
    case Stage(_) => RequestKeepsInv(w, m);
    case Crash => RestartKeepsInv(w, m);
    case Start(_) => RestartKeepsInv(w, m);
  }

  /** Every state of every run, with imports, requests, crashes and restarts in any order. */
  lemma {:induction false} InvariantOverRuns(w: World, moves: seq<Move>)
    requires Inv(w)
    ensures Inv(After(w, moves))
  {
    if moves != [] {
      InvariantOverRuns(w, moves[..|moves| - 1]);
      MoveKeepsInv(After(w, moves[..|moves| - 1]), moves[|moves| - 1]);
    }
  }

  // ---- nothing is lost

  /** At every point between closing the handle and opening a replacement, given that the main file
      held the original when the handle closed: it is readable at dbPath or parked exactly if it is
      parked or no failed open put anything in its way; it can be had by moving the parked file back
      exactly in the second case; and it stays parked until the moment the replacement has opened. */
  lemma OriginalIsAlwaysSomewhere(w: World, moves: seq<Move>)
    requires Inv(w)
    ensures var e := After(w, moves);
            (HandleDown(e.pc) && e.notes.settled ==>
               Traced(e.disk, e.notes.stray, e.notes.original) &&
               (e.pc.Swapping? || e.pc.Opening? || e.pc.MovingBack? ==> e.disk.parked == e.notes.original)) &&
            (e.pc == Discarding && e.notes.settled ==> e.open && e.disk.parked == e.notes.original)
  {
    InvariantOverRuns(w, moves);
    if HandleDown(After(w, moves).pc) && After(w, moves).notes.settled {
      WhereTheOriginalIs(After(w, moves));
    }
  }

  lemma WhereTheOriginalIs(w: World)
    requires Inv(w) && HandleDown(w.pc) && w.notes.settled
    ensures Traced(w.disk, w.notes.stray, w.notes.original)
  {}

  /** A flush followed at once by the close: the main file alone holds what was served. */
  lemma FlushThenCloseSettles(w: World, k1: Luck, k2: Luck)
    requires Inv(w) && w.pc == Flushing && Step(w, k1).pc == Closing
    ensures Step(Step(w, k1), k2).notes.settled
    ensures Step(Step(w, k1), k2).notes.original == Served(w.disk)
  {}

  lemma RefusedFlushTouchesNothing(w: World, k: Luck)
    requires Inv(w) && w.pc == Flushing
    ensures Served(Step(w, k).disk) == Served(w.disk) && Step(w, k).open == w.open
    ensures Step(w, k).disk.parked == w.disk.parked
    ensures Step(w, k).pc == Idle ==> Step(w, k).result.Rejected?
  {
    hide Strip, HasRequiredTables, Checkpoint, Holding, HandleDown, Served, Frames;
    CheckpointKeepsServed(w.disk, k);
  }

  /** A refusal, and every step towards one, leaves the handle, what it serves and the parked file
      as they were. */
  lemma RefusalTouchesNothing(w: World, k: Luck)
    requires Inv(w) && BeforeClose(w.pc) && Step(w, k).pc != ClearingWal
    ensures Served(Step(w, k).disk) == Served(w.disk) && Step(w, k).open == w.open
    ensures Step(w, k).disk.parked == w.disk.parked
    ensures Step(w, k).pc == Idle ==> Step(w, k).result.Rejected?
  {
    if w.pc == Flushing {
      RefusedFlushTouchesNothing(w, k);
    } else {
      hide Strip, HasRequiredTables, Checkpoint, Holding, HandleDown, Frames;
    }
  }

  /** What each answer means to the caller, at the step that gives it. */
  lemma AnswerMeans(w: World, k: Luck)
    requires Inv(w) && w.pc != Idle && Step(w, k).pc == Idle
    ensures var e := Step(w, k);
            match e.result
            case Nothing => false
            case Restored => w.pc == Discarding && e.open && Served(e.disk) == Served(w.disk) && (k.ok ==> e.disk.parked == None)
            case Rejected(_) => BeforeClose(w.pc) && e.open == w.open && Served(e.disk) == Served(w.disk)
            case RolledBack => e.open && (w.notes.settled ==> e.disk.parked == None && (Served(e.disk) == w.notes.original <==> Spares(e.notes.stray, w.notes.original)))
            case Unavailable => !e.open && (w.notes.settled ==> Traced(e.disk, e.notes.stray, w.notes.original))
  {
    if BeforeClose(w.pc) {
      RefusalTouchesNothing(w, k);
      hide PrepareStep, Inv, Served;
    } else if Swaps(w.pc) {
      hide OpenFails, Checkpoint;
    } else {
      BackAnswers(w, k);
    }
  }

  lemma BackAnswers(w: World, k: Luck)
    requires Inv(w) && HandleDown(w.pc) && !Swaps(w.pc) && BackStep(w, k).pc == Idle
    ensures var e := BackStep(w, k);
            (e.result == RolledBack || e.result == Unavailable) && (e.open <==> e.result == RolledBack) &&
            (w.notes.settled ==>
               Traced(e.disk, e.notes.stray, w.notes.original) && (e.result == RolledBack ==> e.disk.parked == None))
  {
    if w.notes.settled {
      WhereTheOriginalIs(w);
    }
    OpenFailsLeaves(w.disk, k);
    hide OpenFails, Checkpoint;
    if w.pc == Reopening && !k.ok && w.notes.settled {
      assert w.disk.parked == None && Served(w.disk) == Replayed(w.notes.original, w.notes.stray);
    }
  }

  /** The replacement that has just opened serves the stripped upload and nothing else, unless the look
      at the log failed and the close had left frames in it. */
  lemma ReplacementServesTheUpload(w: World, k: Luck)
    requires Inv(w) && w.pc == Opening && k.ok
    ensures Step(w, k).pc == Discarding && Step(w, k).open
    ensures CleanlyServes(Step(w, k).disk, w.notes.incoming) <==> !(w.notes.left && w.notes.blind)
  {}

  /** And then a restore reports success while what is served is still the old log's last frame: all
      frames flushed, the log not reset, and the look at it before the removal failing. */
  lemma StaleLogCanOutliveARestore(w: World, keep: Luck, blind: Luck, good: Luck)
    requires Inv(w) && w.pc == Flushing && w.open && Frames(w.disk) != []
    requires keep.ok && keep.flushed >= |Frames(w.disk)| && !keep.reset && blind.unknown && good.ok
    ensures var closed := Step(Step(w, keep), keep);
            var swapped := Step(Step(Step(closed, blind), good), good);
            var e := Step(Step(swapped, good), good);
            e.pc == Idle && e.result == Restored && e.disk.main == Some(w.notes.incoming) && Served(e.disk) == Served(w.disk)
  {
    var closed := Step(Step(w, keep), keep);
    assert closed.pc == ClearingWal && Frames(closed.disk) == Frames(w.disk);
    var parked := Step(Step(closed, blind), good);
    assert parked.pc == Swapping && Frames(parked.disk) == Frames(w.disk) && parked.disk.upload == Some(w.notes.incoming);
  }

  /** A restore that answers it rolled back, with every call but one as it should be, and serves
      neither the original nor the upload: the open of the replacement failed after committing a
      migration, and the close after it did not checkpoint. */
  lemma StrayLogCanOutliveARollback(w: World, bad: Luck, good: Luck)
    requires Inv(w) && w.pc == Opening && w.notes.settled
    requires !bad.ok && bad.migrated != [] && !bad.reset && good.ok && !good.unknown
    ensures var e := Step(Step(Step(Step(w, bad), good), good), good);
            e.pc == Idle && e.result == RolledBack && e.open && e.disk.main == w.notes.original && e.disk.parked == None &&
            Served(e.disk) == Some(bad.migrated[|bad.migrated| - 1])
  {
    var back := Step(Step(w, bad), good);
    assert back.pc == Checking && back.disk.main == w.notes.original && back.disk.parked == None;
    assert back.disk.wal == Some(Frames(w.disk) + bad.migrated);
    hide PrepareStep, SwapStep, Inv;
  }

  // ---- the parked file over many imports

  /** A parked file is only ever removed by an import that parked it: after its replacement opened,
      or by moving it back to dbPath. It is never overwritten. */
  lemma ParkedFileIsProtected(w: World, m: Move)
    requires Inv(w) && w.disk.parked.Some?
    ensures var e := Apply(w, m);
            e.disk.parked == w.disk.parked ||
            (e.disk.parked == None && m.Go? &&
             ((w.pc == Discarding && w.open && e.result == Restored) ||
              (w.pc == MovingBack && e.disk.main == w.disk.parked)))
  {
    hide Strip, HasRequiredTables, Checkpoint, OpenFails, Holding, Served, Frames;
    match m
    case Go(k) =>
      CheckpointKeepsServed(w.disk, k);
      OpenFailsLeaves(w.disk, k);
    case Flush(k) => CheckpointKeepsServed(w.disk, k);
    case Start(k) =>
      OpenFailsLeaves(w.disk.(upload := None), k);
      OpenFailsLeaves(w.disk.(main := Some(SEEDED), wal := None, upload := None), k);
    case _ =>
  }

  /** No import in progress has parked anything. */
  predicate NotOurs(pc: Pc) {
    pc.Idle? || pc.Down? || pc.Validating? || pc.Stripping? || pc.Looking?
  }

  lemma LeftoverStays(w: World, m: Move)
    requires NotOurs(w.pc) && w.disk.parked.Some?
    ensures Apply(w, m).disk.parked == w.disk.parked && NotOurs(Apply(w, m).pc)
  {
    hide Strip, HasRequiredTables;
  }

  /** A file left parked by a process that died stays exactly as it is through any number of
      restarts, empty databases made at dbPath, requests and further imports, all of which are
      refused. */
  lemma {:induction false} LeftoverSurvives(w: World, moves: seq<Move>)
    requires NotOurs(w.pc) && w.disk.parked.Some?
    ensures var e := After(w, moves); e.disk.parked == w.disk.parked && NotOurs(e.pc)
  {
    hide Apply;
    if moves != [] {
      LeftoverSurvives(w, moves[..|moves| - 1]);
      LeftoverStays(After(w, moves[..|moves| - 1]), moves[|moves| - 1]);
    }
  }

  /** Dying anywhere in a swap, the main file having held the original at the close: if it is parked
      then, it stays parked whatever happens after the restart; if not, the restart serves it exactly
      if no failed open put anything in its way. */
  lemma CrashLosesNothing(w: World, k: Luck, moves: seq<Move>)
    requires Inv(w) && (HandleDown(w.pc) || w.pc == Discarding) && w.notes.settled && k.ok
    ensures var restarted := Apply(Apply(w, Crash), Start(k));
            restarted.open &&
            (w.disk.parked.Some? ==> After(restarted, moves).disk.parked == w.notes.original) &&
            (w.disk.parked.None? ==> (Served(restarted.disk) == w.notes.original <==> Spares(w.notes.stray, w.notes.original)))
  {
    var restarted := Apply(Apply(w, Crash), Start(k));
    if w.disk.parked.Some? {
      assert restarted.disk.parked == w.notes.original;
      LeftoverSurvives(restarted, moves);
    }
  }

  /** And it can: dying after the parked file was moved back beside the log of a failed open, nothing
      is parked and the restart serves what that open had made of the upload. */
  lemma CrashBesideAStrayLog(w: World, bad: Luck, good: Luck)
    requires Inv(w) && w.pc == Opening && w.notes.settled && w.notes.original.Some?
    requires !bad.ok && bad.migrated != [] && !bad.reset && good.ok
    ensures var back := Step(Step(w, bad), good);
            var restarted := Apply(Apply(back, Crash), Start(good));
            back.pc == Checking && restarted.open && restarted.disk.parked == None &&
            Served(restarted.disk) == Some(bad.migrated[|bad.migrated| - 1]) &&
            (Served(restarted.disk) != w.notes.original ==> !Kept(back.disk, w.notes.original))
  {
    var back := Step(Step(w, bad), good);
    assert back.pc == Checking && back.disk.main == w.notes.original && back.disk.parked == None;
    assert back.disk.wal == Some(Frames(w.disk) + bad.migrated);
    hide Step, Inv;
  }
}
