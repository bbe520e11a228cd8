/** Committed writes across a restore: which commits the close still holds, which of them a failed
    restore gives back, and what a successful one serves. */
module RestoreWrites {
  import opened Basics
  import opened Restore

  // ---- requests between the flush and the close

  /** What other requests do while the handle is open. */
  predicate AllRequests(moves: seq<Move>) {
    forall i :: 0 <= i < |moves| ==> moves[i].Commit? || moves[i].Flush? || moves[i].Stage?
  }

  /** The content after those requests: the last commit, or what there was. */
  function Latest(was: Option<Database>, moves: seq<Move>): Option<Database> {
    if moves == [] then was
    else
      var n := |moves| - 1;
      if moves[n].Commit? then Some(moves[n].db) else Latest(was, moves[..n])
  }

  /** How many frames are in the log before move n. */
  function FramesBefore(w: World, moves: seq<Move>, n: nat): nat
    requires n <= |moves|
  {
    |Frames(After(w, moves[..n]).disk)|
  }

  /** What the last flush put into the main file: all that was committed before it if it was complete,
      else a mixture of no use; with no flush, what there was. */
  function Flushed(w: World, moves: seq<Move>): Option<Database> {
    if moves == [] then Served(w.disk)
    else
      var n := |moves| - 1;
      if !moves[n].Flush? then Flushed(w, moves[..n])
      else if moves[n].luck.flushed >= FramesBefore(w, moves, n) then Latest(Served(w.disk), moves[..n])
      else Some(moves[n].luck.torn)
  }

  lemma RequestStep(w: World, m: Move)
    requires w.pc == Closing && w.open && w.disk.main.Some? && (m.Commit? || m.Flush? || m.Stage?)
    ensures var e := Apply(w, m);
            e.pc == Closing && e.open && e.disk.main.Some? &&
            Served(e.disk) == (if m.Commit? then Some(m.db) else Served(w.disk)) &&
            e.disk.main == (if !m.Flush? then w.disk.main
                            else if m.luck.flushed >= |Frames(w.disk)| then Served(w.disk)
                            else Some(m.luck.torn))
  {}

  /** What is served follows the commits, what is in the main file follows the flushes. */
  lemma {:induction false} RequestsRun(w: World, moves: seq<Move>)
    requires w.pc == Closing && w.open && w.disk.main == Served(w.disk) != None && AllRequests(moves)
    ensures var e := After(w, moves);
            e.pc == Closing && e.open && e.disk.main.Some? &&
            Served(e.disk) == Latest(Served(w.disk), moves) && e.disk.main == Flushed(w, moves)
  {
    hide Apply;
    if moves != [] {
      var n := |moves| - 1;
      RequestsRun(w, moves[..n]);
      RequestStep(After(w, moves[..n]), moves[n]);
    }
  }

  /** After a complete flush and any requests, the close leaves everything in the main file exactly
      when it checkpoints itself or nothing was committed since the last flush that the flush does
      not hold. */
  lemma SettledExactlyWhen(w: World, moves: seq<Move>, k: Luck)
    requires Inv(w) && w.pc == Closing && w.disk.main == Served(w.disk) && AllRequests(moves)
    ensures var closed := Step(After(w, moves), k);
            closed.pc == ClearingWal && closed.notes.original == Latest(Served(w.disk), moves) &&
            (closed.notes.settled <==> k.reset || Flushed(w, moves) == Latest(Served(w.disk), moves))
  {
    RequestsRun(w, moves);
    hide After, Flushed, Latest;
  }

  predicate OnlyCommits(moves: seq<Move>) {
    forall i :: 0 <= i < |moves| ==> moves[i].Commit?
  }

  lemma {:induction false} CommitsFlushNothing(w: World, moves: seq<Move>)
    requires OnlyCommits(moves)
    ensures Flushed(w, moves) == Served(w.disk)
    ensures Latest(Served(w.disk), moves) == if moves == [] then Served(w.disk) else Some(moves[|moves| - 1].db)
  {
    if moves != [] {
      CommitsFlushNothing(w, moves[..|moves| - 1]);
    }
  }

  /** With commits alone in between: unless the close checkpoints, everything is in the main file
      exactly when there was none, or the last one wrote what was there before. */
  lemma CommitsAreSettledExactlyWhen(w: World, moves: seq<Move>, k: Luck)
    requires Inv(w) && w.pc == Closing && w.disk.main == Served(w.disk) && OnlyCommits(moves)
    ensures Step(After(w, moves), k).notes.settled <==>
            k.reset || moves == [] || Some(moves[|moves| - 1].db) == Served(w.disk)
  {
    SettledExactlyWhen(w, moves, k);
    CommitsFlushNothing(w, moves);
  }

  // ---- the rest of the import, to its answer

  /** The calls of Import from here on, until it answers. */
  function Answered(w: World, lucks: seq<Luck>): World
    decreases |lucks|
  {
    if w.pc == Idle || lucks == [] then w else Answered(Step(w, lucks[0]), lucks[1..])
  }

  /** No open has failed. */
  predicate Untouched(n: Notes) {
    !n.wiped && n.stray == []
  }

  /** Where the old database is while the handle is down, whatever the main file held. */
  predicate Holds(w: World, file: Option<Database>, frames: seq<Database>) {
    var d := w.disk;
    file.Some? && !w.open && Frames(d) == InTheWay(w.notes, frames) &&
    (w.pc.Parking? || w.pc.Swapping? ==> d.upload == Some(w.notes.incoming)) &&
    match w.pc
    case Parking => d.main == file && d.parked == None && Untouched(w.notes)
    case Swapping => d.main == None && d.parked == file && Untouched(w.notes)
    case Opening => d.main == Some(w.notes.incoming) && d.parked == file && Untouched(w.notes)
    case MovingBack => d.parked == file
    case Checking => d.main == file && d.parked == None
    case Reopening => d.main == file && d.parked == None
    case _ => false
  }

  /** What lies in the log beside the old main file, given the frames the clearing left. */
  function InTheWay(n: Notes, frames: seq<Database>): seq<Database> {
    (if n.wiped then [] else frames) + n.stray
  }

  /** An answer of Import, given the old main file and the frames the clearing left. */
  predicate Settles(e: World, file: Option<Database>, frames: seq<Database>, incoming: Database) {
    match e.result
    case Restored => e.open && e.disk.main == Some(incoming) && Frames(e.disk) == frames &&
                     (e.disk.parked == None || e.disk.parked == file)
    case RolledBack => e.open && Served(e.disk) == Replayed(file, InTheWay(e.notes, frames)) && e.disk.parked == None
    case Unavailable => !e.open && AtHand(e.disk) == Replayed(file, InTheWay(e.notes, frames))
    case _ => false
  }

  /** The replacement is open and the old file parked. */
  predicate Opened(w: World, file: Option<Database>, frames: seq<Database>) {
    w.pc == Discarding && w.open && w.disk.main == Some(w.notes.incoming) && w.disk.parked == file && file.Some? && Frames(w.disk) == frames && Untouched(w.notes)
  }

  lemma HoldsForward(w: World, k: Luck, file: Option<Database>, frames: seq<Database>)
    requires Holds(w, file, frames) && Swaps(w.pc)
    ensures var e := Step(w, k);
            e.notes.incoming == w.notes.incoming && (Holds(e, file, frames) || Opened(e, file, frames))
  {
    OpenFailsLeaves(w.disk, k);
    hide OpenFails, Checkpoint, Served;
  }

  lemma HoldsBack(w: World, k: Luck, file: Option<Database>, frames: seq<Database>)
    requires Holds(w, file, frames) && !Swaps(w.pc)
    ensures var e := Step(w, k);
            e.notes.incoming == w.notes.incoming &&
            (Holds(e, file, frames) || (e.pc == Idle && Settles(e, file, frames, w.notes.incoming)))
  {
    if w.pc == Reopening {
      ReopeningHolds(w, k, file, frames);
    } else {
      HoldsAtHand(w, file, frames);
      hide InTheWay, AtHand;
    }
  }

  lemma ReplayedOn(file: Option<Database>, n: Notes, frames: seq<Database>, more: seq<Database>)
    ensures Replayed(Replayed(file, InTheWay(n, frames)), more) == Replayed(file, InTheWay(n.(stray := n.stray + more), frames))
  {
    assert InTheWay(n.(stray := n.stray + more), frames) == InTheWay(n, frames) + more;
    hide InTheWay;
  }

  lemma ReopeningHolds(w: World, k: Luck, file: Option<Database>, frames: seq<Database>)
    requires Holds(w, file, frames) && w.pc == Reopening
    ensures Step(w, k).pc == Idle && Settles(Step(w, k), file, frames, w.notes.incoming)
  {
    HoldsAtHand(w, file, frames);
    assert w.disk.main.Some? && w.disk.parked == None && !w.open;
    hide Holds, Replayed, InTheWay;
    ReplayedOn(file, w.notes, frames, k.migrated);
    OpenFailsLeaves(w.disk, k);
    hide OpenFails, Served, Frames;
    assert Step(w, k).notes == if k.ok then w.notes else w.notes.(stray := w.notes.stray + k.migrated);
  }

  /** Wherever the old file is, moving it back if need be gives what is to be replayed over it. */
  lemma HoldsAtHand(w: World, file: Option<Database>, frames: seq<Database>)
    requires Holds(w, file, frames)
    ensures AtHand(w.disk) == Replayed(file, InTheWay(w.notes, frames))
  {
    hide InTheWay;
  }

  lemma HoldsOnward(w: World, k: Luck, file: Option<Database>, frames: seq<Database>)
    requires Holds(w, file, frames)
    ensures var e := Step(w, k);
            e.notes.incoming == w.notes.incoming &&
            (Holds(e, file, frames) || Opened(e, file, frames) || (e.pc == Idle && Settles(e, file, frames, w.notes.incoming)))
  {
    hide Holds, Opened, Settles, Step;
    if Swaps(w.pc) {
      HoldsForward(w, k, file, frames);
    } else {
      HoldsBack(w, k, file, frames);
    }
  }

  lemma OpenedOnward(w: World, k: Luck, file: Option<Database>, frames: seq<Database>)
    requires Opened(w, file, frames)
    ensures Step(w, k).pc == Idle && Settles(Step(w, k), file, frames, w.notes.incoming)
  {}

  lemma {:induction false} AnswerSettles(w: World, lucks: seq<Luck>, file: Option<Database>, frames: seq<Database>)
    requires Holds(w, file, frames) || Opened(w, file, frames)
    ensures var e := Answered(w, lucks);
            if e.pc == Idle then Settles(e, file, frames, w.notes.incoming) else Holds(e, file, frames) || Opened(e, file, frames)
    decreases |lucks|
  {
    assert w.pc != Idle;
    hide Holds, Opened, Settles, Step;
    if lucks != [] {
      var next := Step(w, lucks[0]);
      if Opened(w, file, frames) {
        OpenedOnward(w, lucks[0], file, frames);
      } else {
        HoldsOnward(w, lucks[0], file, frames);
      }
      if next.pc != Idle {
        AnswerSettles(next, lucks[1..], file, frames);
      }
    }
  }

  /** The removal of the log took place. */
  predicate Removes(closed: World, k: Luck) {
    closed.disk.wal.Some? && !k.unknown && k.ok
  }

  lemma ClearingHolds(w: World, kc: Luck, kw: Luck)
    requires Inv(w) && w.pc == Closing
    ensures var closed := Step(w, kc);
            closed.pc == ClearingWal && closed.notes.incoming == w.notes.incoming &&
            Holds(Step(closed, kw), closed.disk.main, if Removes(closed, kw) then [] else Frames(closed.disk)) &&
            Step(closed, kw).notes.incoming == w.notes.incoming
    ensures var closed := Step(w, kc);
            closed.notes.original == Served(w.disk) == Replayed(closed.disk.main, Frames(closed.disk)) &&
            (Frames(closed.disk) == [] ==> closed.notes.settled) &&
            (closed.notes.settled <==> closed.disk.main == Served(w.disk))
  {}

  /** Nil means that exactly the stripped upload is served, with nothing replayed over it, exactly
      unless the close left frames in the log and the look at it failed. */
  lemma NilServesTheUploadExactlyWhen(w: World, kc: Luck, kw: Luck, lucks: seq<Luck>)
    requires Inv(w) && w.pc == Closing
    requires var e := Answered(Step(Step(w, kc), kw), lucks); e.pc == Idle && e.result == Restored
    ensures var e := Answered(Step(Step(w, kc), kw), lucks);
            e.open && e.disk.main == Some(w.notes.incoming) &&
            (CleanlyServes(e.disk, w.notes.incoming) <==> !(kw.unknown && !kc.reset && Frames(w.disk) != []))
  {
    var closed := Step(w, kc);
    var frames := if Removes(closed, kw) then [] else Frames(closed.disk);
    ClearingHolds(w, kc, kw);
    AnswerSettles(Step(closed, kw), lucks, closed.disk.main, frames);
    LeftInTheLog(w, kc);
    if !kw.unknown && !kw.ok && closed.disk.wal.Some? {
      SwappedBlind(w, kc, kw, lucks);
    }
    hide Holds, Step, Answered;
  }

  lemma LeftInTheLog(w: World, kc: Luck)
    requires w.pc == Closing
    ensures Frames(Step(w, kc).disk) != [] <==> !kc.reset && Frames(w.disk) != []
  {}

  /** A log that was seen and not removed ends the swap, so nil with frames means a look that failed. */
  lemma SwappedBlind(w: World, kc: Luck, kw: Luck, lucks: seq<Luck>)
    requires Inv(w) && w.pc == Closing && !kw.unknown && !kw.ok && Step(w, kc).disk.wal.Some?
    ensures var e := Answered(Step(Step(w, kc), kw), lucks); e.pc == Idle ==> e.result != Restored
  {
    assert Step(Step(w, kc), kw).pc == Checking;
    GoingBack(Step(Step(w, kc), kw), lucks);
  }

  lemma {:induction false} GoingBack(w: World, lucks: seq<Luck>)
    requires w.pc == Checking || w.pc == Reopening
    ensures var e := Answered(w, lucks); e.pc == Idle ==> e.result == RolledBack || e.result == Unavailable
    decreases |lucks|
  {
    if lucks != [] && Step(w, lucks[0]).pc != Idle {
      GoingBack(Step(w, lucks[0]), lucks[1..]);
    }
  }

  /** The latest commit is what the old file gives together with the frames in its way: what failed
      opens left last if they left anything, and otherwise exactly unless a log that alone held it was
      removed, or emptied into the replacement. */
  predicate LatestIsThere(w: World, moves: seq<Move>, kc: Luck, kw: Luck, n: Notes) {
    var latest := Latest(Served(w.disk), moves);
    if n.stray != [] then Some(n.stray[|n.stray| - 1]) == latest
    else InMainFile(w, moves, kc) || ((kw.unknown || !kw.ok) && !n.wiped)
  }

  /** The close checkpointed, or the last flush held the latest commit. */
  predicate InMainFile(w: World, moves: seq<Move>, kc: Luck) {
    kc.reset || Flushed(w, moves) == Latest(Served(w.disk), moves)
  }

  lemma WhatTheSwapHolds(w: World, moves: seq<Move>, kc: Luck, kw: Luck, n: Notes)
    returns (file: Option<Database>, frames: seq<Database>)
    requires Inv(w) && w.pc == Closing && w.disk.main == Served(w.disk) && AllRequests(moves)
    ensures Holds(Step(Step(After(w, moves), kc), kw), file, frames)
    ensures file == Latest(Served(w.disk), moves) <==> InMainFile(w, moves, kc)
    ensures Replayed(file, InTheWay(n, frames)) == Latest(Served(w.disk), moves) <==> LatestIsThere(w, moves, kc, kw, n)
  {
    var at := After(w, moves);
    var closed := Step(at, kc);
    file, frames := closed.disk.main, if Removes(closed, kw) then [] else Frames(closed.disk);
    InvariantOverRuns(w, moves);
    SettledExactlyWhen(w, moves, kc);
    RequestsRun(w, moves);
    ClearingHolds(at, kc, kw);
    UnsettledHasALog(at, kc);
    hide Holds, Step, After, Flushed, Latest, Inv, Frames, Served;
  }

  /** Whatever requests came before the close and whatever failed after it, a restore that rolls back
      or ends unavailable has the latest commit at hand exactly when LatestIsThere says so. */
  lemma FailedRestoreKeepsWritesExactlyWhen(w: World, moves: seq<Move>, kc: Luck, kw: Luck, lucks: seq<Luck>)
    requires Inv(w) && w.pc == Closing && w.disk.main == Served(w.disk) && AllRequests(moves)
    requires var e := Answered(Step(Step(After(w, moves), kc), kw), lucks);
             e.pc == Idle && (e.result == RolledBack || e.result == Unavailable)
    ensures var e := Answered(Step(Step(After(w, moves), kc), kw), lucks);
            AtHand(e.disk) == Latest(Served(w.disk), moves) <==> LatestIsThere(w, moves, kc, kw, e.notes)
  {
    var cleared := Step(Step(After(w, moves), kc), kw);
    var file, frames := WhatTheSwapHolds(w, moves, kc, kw, Answered(cleared, lucks).notes);
    AnswerSettles(cleared, lucks, file, frames);
    hide Holds, Step, Answered, After, Latest, LatestIsThere, Inv, InTheWay;
  }

  /** And of dying in the middle: after a restart the latest commit is at hand exactly so too, except
      while dbPath has no file, when a restart deletes the log and the parked file alone must hold it. */
  lemma CrashKeepsWritesExactlyWhen(w: World, moves: seq<Move>, kc: Luck, kw: Luck, lucks: seq<Luck>, k: Luck)
    requires Inv(w) && w.pc == Closing && w.disk.main == Served(w.disk) && AllRequests(moves) && k.ok
    requires Answered(Step(Step(After(w, moves), kc), kw), lucks).pc != Idle
    ensures var died := Answered(Step(Step(After(w, moves), kc), kw), lucks);
            var restarted := Apply(Apply(died, Crash), Start(k));
            restarted.open &&
            (AtHand(restarted.disk) == Latest(Served(w.disk), moves) <==>
               if died.disk.main == None then InMainFile(w, moves, kc) else LatestIsThere(w, moves, kc, kw, died.notes))
  {
    var cleared := Step(Step(After(w, moves), kc), kw);
    var died := Answered(cleared, lucks);
    var file, frames := WhatTheSwapHolds(w, moves, kc, kw, died.notes);
    AnswerSettles(cleared, lucks, file, frames);
    RestartHolds(died, k, file, frames);
    hide Holds, Step, Answered, After, Latest, LatestIsThere, InMainFile, Inv, InTheWay, Apply;
  }

  /** Dying right after the close, before the log is looked at, loses nothing. */
  lemma CrashAtCloseKeepsWrites(w: World, moves: seq<Move>, kc: Luck, k: Luck)
    requires Inv(w) && w.pc == Closing && w.disk.main == Served(w.disk) && AllRequests(moves) && k.ok
    ensures var restarted := Apply(Apply(Step(After(w, moves), kc), Crash), Start(k));
            restarted.open && Served(restarted.disk) == Latest(Served(w.disk), moves)
  {
    RequestsRun(w, moves);
    RestartAtClose(After(w, moves), kc, k);
    hide After, Latest, Flushed, Inv, Apply, Step, Served;
  }

  lemma RestartAtClose(w: World, kc: Luck, k: Luck)
    requires w.pc == Closing && w.disk.main.Some? && k.ok
    ensures var restarted := Apply(Apply(Step(w, kc), Crash), Start(k));
            restarted.open && Served(restarted.disk) == Served(w.disk)
  {}

  lemma RestartHolds(w: World, k: Luck, file: Option<Database>, frames: seq<Database>)
    requires (Holds(w, file, frames) || Opened(w, file, frames)) && k.ok
    ensures var restarted := Apply(Apply(w, Crash), Start(k));
            restarted.open &&
            AtHand(restarted.disk) == if w.disk.main == None then file else Replayed(file, InTheWay(w.notes, frames))
  {
    if Untouched(w.notes) {
      assert InTheWay(w.notes, frames) == frames;
    }
    hide InTheWay;
  }

  lemma UnsettledHasALog(w: World, kc: Luck)
    requires Inv(w) && w.pc == Closing
    ensures !Step(w, kc).notes.settled ==> Step(w, kc).disk.wal.Some?
  {}

  /** The write that is lost: committed between the flush and a close that does not checkpoint, with
      the log then removed. When the swap fails the restore answers that it rolled back, and serves
      what was there before the commit. */
  lemma AWriteIsLost(w: World, db: Database, bad: Luck, good: Luck)
    requires Inv(w) && w.pc == Flushing && w.open && Some(db) != Served(w.disk)
    requires good.ok && !good.unknown && !good.reset && good.flushed >= |Frames(w.disk)| && !bad.ok
    ensures var at := Apply(Step(w, good), Commit(db));
            var swapping := Step(Step(Step(at, good), good), good);
            var e := Step(Step(Step(Step(swapping, bad), good), good), good);
            Served(at.disk) == Some(db) && swapping.pc == Swapping &&
            e.pc == Idle && e.result == RolledBack && Served(e.disk) == Served(w.disk) && AtHand(e.disk) != Some(db)
  {
    assert Served(w.disk).Some?;
    hide Inv, PrepareStep;
    var swapping := CommittedThenSwapping(w, db, good);
    hide Apply, Step;
    SwapFails(swapping, bad, good);
  }

  lemma SwapFails(w: World, bad: Luck, good: Luck)
    requires w.pc == Swapping && w.disk.main == None && w.disk.wal == None && w.disk.parked.Some?
    requires good.ok && !good.unknown && !bad.ok
    ensures var e := Step(Step(Step(Step(w, bad), good), good), good);
            e.pc == Idle && e.result == RolledBack && e.disk.parked == None && Served(e.disk) == w.disk.parked
  {
    var back := Step(Step(w, bad), good);
    assert back.pc == Checking && back.disk.main == w.disk.parked && back.disk.parked == None && back.disk.wal == None;
  }

  lemma SwapSucceeds(w: World, last: Luck, good: Luck)
    requires w.pc == Swapping && w.disk.wal == None && w.disk.upload.Some? && good.ok
    ensures var e := Step(Step(Step(w, good), good), last);
            e.pc == Idle && e.result == Restored && Served(e.disk) == w.disk.upload &&
            (e.disk.parked == None || e.disk.parked == w.disk.parked)
  {
    var swapped := Step(Step(w, good), good);
    assert swapped.pc == Discarding && swapped.disk.main == w.disk.upload && swapped.disk.parked == w.disk.parked;
  }

  /** And when the swap succeeds, the write is neither served nor in what was set aside. */
  lemma ALostWriteIsNotSetAside(w: World, db: Database, bad: Luck, good: Luck)
    requires Inv(w) && w.pc == Flushing && w.open && Some(db) != Served(w.disk) && db != w.notes.incoming
    requires good.ok && !good.unknown && !good.reset && good.flushed >= |Frames(w.disk)| && !bad.ok
    ensures var swapping := Step(Step(Step(Apply(Step(w, good), Commit(db)), good), good), good);
            forall last :: last == good || last == bad ==>
              (var e := Step(Step(Step(swapping, good), good), last);
               e.pc == Idle && e.result == Restored && Served(e.disk) == Some(w.notes.incoming) &&
               e.disk.parked != Some(db) && Served(e.disk) != Some(db))
  {
    hide Inv, PrepareStep;
    var swapping := CommittedThenSwapping(w, db, good);
    hide Apply, Step;
    SwapSucceeds(swapping, good, good);
    SwapSucceeds(swapping, bad, good);
  }

  lemma CommittedThenSwapping(w: World, db: Database, good: Luck) returns (swapping: World)
    requires Inv(w) && w.pc == Flushing && w.open && Some(db) != Served(w.disk)
    requires good.ok && !good.unknown && !good.reset && good.flushed >= |Frames(w.disk)|
    ensures var at := Apply(Step(w, good), Commit(db));
            Served(at.disk) == Some(db) && swapping == Step(Step(Step(at, good), good), good)
    ensures swapping.pc == Swapping && swapping.disk == Disk(None, None, Served(w.disk), Some(w.notes.incoming))
    ensures swapping.notes.incoming == w.notes.incoming
  {
    CheckpointKeepsServed(w.disk, good);
    var at := Apply(Step(w, good), Commit(db));
    assert at.pc == Closing && at.open && at.disk.main == Served(w.disk) && at.disk.upload == Some(w.notes.incoming);
    assert at.disk.parked == None && Served(at.disk) == Some(db);
    hide Inv, Checkpoint;
    swapping := Step(Step(Step(at, good), good), good);
  }

  /** The write that dying loses although nothing had removed it: it was in the log alone, the look at
      the log failed, and between the park and the swap dbPath has no file, so the restart deletes the
      log. */
  lemma ACrashLosesAWrite(w: World, db: Database, blind: Luck, good: Luck)
    requires Inv(w) && w.pc == Flushing && w.open && Some(db) != Served(w.disk)
    requires good.ok && !good.unknown && !good.reset && good.flushed >= |Frames(w.disk)| && blind.unknown
    ensures var at := Apply(Step(w, good), Commit(db));
            var swapping := Step(Step(Step(at, good), blind), good);
            var restarted := Apply(Apply(swapping, Crash), Start(good));
            Served(at.disk) == Some(db) && swapping.pc == Swapping && Frames(swapping.disk) != [] &&
            restarted.open && AtHand(restarted.disk) == Served(w.disk) != Some(db)
  {
    CheckpointKeepsServed(w.disk, good);
    var at := Apply(Step(w, good), Commit(db));
    assert at.pc == Closing && at.open && at.disk.main == Served(w.disk) && at.disk.parked == None;
    assert at.disk.wal.Some? && Frames(at.disk) != [] && Served(at.disk) == Some(db);
    hide Inv, Checkpoint;
    var swapping := Step(Step(Step(at, good), blind), good);
    assert swapping.pc == Swapping && swapping.disk.main == None && swapping.disk.parked == Served(w.disk);
  }
}
