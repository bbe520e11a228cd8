/** Import as the process runs it, call by call, on the real files and handle. Each method is one
    call or one group of calls of Import; w records the machine of Restore beside it, and every
    contract says the two agree. importMu makes an import one sequential actor, so no other import
    moves in between; commits by other requests are the Commit moves of Restore. */
module RestoreImport {
  import opened Basics
  import opened Restore
  import opened RestoreUpload

  class Instance {
    var main: Option<Database>
    var wal: Option<seq<Database>>
    var parked: Option<Database>
    var upload: Option<Database>
    var open: bool
    ghost var w: World

    function Files(): Disk
      reads this
    {
      Disk(main, wal, parked, upload)
    }

    ghost predicate Valid()
      reads this
    {
      w.disk == Files() && w.open == open && Inv(w)
    }

    /** One call done with luck k. */
    twostate predicate Stepped(k: Luck)
      reads this
    {
      Valid() && w == Step(old(w), k)
    }

    /** A check that either lets the import go on to next or ends it. */
    ghost predicate Refusal(answer: Result, next: Pc)
      reads this
    {
      if answer == Nothing then w.pc == next else w.pc == Idle && w.result == answer && answer.Rejected?
    }

    constructor (live: Database)
      ensures Valid() && w.pc == Idle && open && Files() == Disk(Some(live), None, None, None)
    {
      main, wal, parked, upload, open := Some(live), None, None, None, true;
      w := World(Idle, Disk(Some(live), None, None, None), true, Nothing,
                 Notes(None, false, map[], false, false, false, []));
    }

    /** Integrity and required tables of the staged file. */
    method Validate() returns (answer: Result, ghost k: Luck)
      requires Valid() && w.pc == Validating
      modifies this
      ensures Stepped(k) && Files() == old(Files()) && open == old(open)
      ensures Refusal(answer, Stripping)
      ensures answer == Nothing ==> upload.Some? && IsOurs(upload.value)
    {
      hide Inv, HasRequiredTables, IsOurs;
      var sound: bool, fault: bool := *, *;
      answer := if sound && upload.Some? && HasRequiredTables(upload.value) then Nothing else Rejected(!sound && fault);
      k := Luck(sound, false, fault, 0, false, map[], []);
      if upload.Some? { RequiredTablesAreSpelled(upload.value); }
      MoveKeepsInv(w, Go(k));
      w := Step(w, k);
    }

    /** The upload is the file being changed, so a refusal leaves the live database alone. */
    method StripUpload() returns (answer: Result, ghost k: Luck)
      requires Valid() && w.pc == Stripping && upload.Some? && NamesDistinct(upload.value)
      modifies this
      ensures Stepped(k) && open == old(open)
      ensures Refusal(answer, Looking)
      ensures answer == Nothing ==> w.notes.incoming == Strip(old(upload).value)
    {
      hide Strip, NamesDistinct, Inv;
      var fault: bool := *;
      var ok, stripped := StripCredentials(upload.value);
      answer := if ok then Nothing else Rejected(fault);
      k := Luck(ok, false, fault, 0, false, map[], []);
      MoveKeepsInv(w, Go(k));
      w := Step(w, k);
      if ok {
        upload := Some(stripped);
      }
    }

    /** Stat of dbPath.rollback: anything but a clear "not there" refuses the restore. */
    method LookForLeftover() returns (answer: Result, ghost k: Luck)
      requires Valid() && w.pc == Looking
      modifies this
      ensures Stepped(k) && Files() == old(Files()) && open == old(open)
      ensures Refusal(answer, Flushing)
      ensures answer == Nothing ==> parked == None
    {
      hide Inv;
      var unknown: bool := *;
      answer := if !unknown && parked == None then Nothing else Rejected(true);
      k := Luck(true, unknown, false, 0, false, map[], []);
      MoveKeepsInv(w, Go(k));
      w := Step(w, k);
    }

    /** PRAGMA wal_checkpoint(TRUNCATE), judged by its row and not by its error. */
    method FlushLog() returns (answer: Result, ghost k: Luck)
      requires Valid() && w.pc == Flushing
      modifies this
      ensures Stepped(k) && open == old(open)
      ensures Refusal(answer, Closing)
    {
      hide Inv;
      var answered: bool, reset: bool := *, *;
      var flushed: nat, torn: Database := *, *;
      k := Luck(answered, false, false, flushed, reset, torn, []);
      MoveKeepsInv(w, Go(k));
      w := Step(w, k);
      if !open || !answered { return Rejected(true), k; }
      var walFrames := |Frames(Files())|;
      var d := Checkpoint(Files(), Luck(answered, false, false, flushed, reset, torn, []));
      main, wal := d.main, d.wal;
      answer := if walFrames > 0 && flushed < walFrames then Rejected(true) else Nothing;
    }

    /** A failure to close is only logged. */
    method CloseHandle() returns (ghost k: Luck)
      requires Valid() && w.pc == Closing
      modifies this
      ensures Stepped(k) && w.pc == ClearingWal && !open
      ensures w.notes.left <==> Frames(Files()) != []
    {
      hide Inv;
      var checkpoints: bool := *;
      k := Luck(true, false, false, 0, checkpoints, map[], []);
      MoveKeepsInv(w, Go(k));
      w := Step(w, k);
      if checkpoints {
        main, wal := Served(Files()), None;
      }
      open := false;
    }

    /** A look that fails in any way but "not there" leaves the log where it is. */
    method ClearLog() returns (ok: bool, ghost blind: bool, ghost k: Luck)
      requires Valid() && w.pc == ClearingWal
      modifies this
      ensures Stepped(k) && open == old(open) && blind == k.unknown == w.notes.blind
      ensures Files() == old(Files()).(wal := if blind || !ok then old(wal) else None)
      ensures w.pc == if ok then Parking else Checking
    {
      hide Inv;
      var unknown: bool, removed: bool := *, *;
      blind := unknown;
      k := Luck(removed, unknown, false, 0, false, map[], []);
      MoveKeepsInv(w, Go(k));
      w := Step(w, k);
      ok := true;
      if !unknown && wal.Some? {
        ok := removed;
        if ok {
          wal := None;
        }
      }
    }

    /** The rename that sets the current database aside. */
    method Park() returns (ok: bool, ghost k: Luck)
      requires Valid() && w.pc == Parking
      modifies this
      ensures Stepped(k) && open == old(open)
      ensures w.pc == if ok then Swapping else Checking
    {
      hide Inv;
      var renamed: bool := *;
      ok := renamed && main.Some?;
      k := Luck(renamed, false, false, 0, false, map[], []);
      MoveKeepsInv(w, Go(k));
      w := Step(w, k);
      if ok {
        main, parked := None, main;
      }
    }

    method Swap() returns (ok: bool, ghost k: Luck)
      requires Valid() && w.pc == Swapping
      modifies this
      ensures Stepped(k) && open == old(open)
      ensures w.pc == if ok then Opening else MovingBack
    {
      hide Inv;
      var renamed: bool := *;
      ok := renamed && upload.Some?;
      k := Luck(renamed, false, false, 0, false, map[], []);
      MoveKeepsInv(w, Go(k));
      w := Step(w, k);
      if ok {
        main, upload := upload, None;
      }
    }

    /** store.Reopen: an open that fails may have committed migrations, and the error of the close
        after it is dropped. */
    method Reopen(replacement: bool) returns (ok: bool, ghost k: Luck)
      requires Valid() && w.pc == (if replacement then Opening else Reopening)
      modifies this
      ensures Stepped(k) && k.ok == ok
      ensures Files() == if ok then old(Files()) else OpenFails(old(Files()), k)
      ensures replacement ==> w.pc == if ok then Discarding else MovingBack
      ensures !replacement ==> w.pc == Idle && w.result == if ok then RolledBack else Unavailable
    {
      hide Inv, Checkpoint;
      var opens: bool, reset: bool := *, *;
      var flushed: nat, torn: Database, migrated: seq<Database> := *, *, *;
      k := Luck(opens, false, false, flushed, reset, torn, migrated);
      MoveKeepsInv(w, Go(k));
      OpenFailsLeaves(w.disk, k);
      w := Step(w, k);
      ok := opens;
      if ok {
        open := true;
      } else {
        if migrated != [] {
          wal := Some(Frames(Files()) + migrated);
        }
        var d := Checkpoint(Files(), Luck(opens, false, false, flushed, reset, torn, migrated));
        main, wal := d.main, d.wal;
      }
    }

    /** The previous database is disposable only now; a failure to remove it is logged. */
    method Discard() returns (ghost k: Luck)
      requires Valid() && w.pc == Discarding
      modifies this
      ensures Stepped(k) && w.pc == Idle && w.result == Restored && open == old(open) && (k.ok ==> parked == None)
      ensures main == old(main) && wal == old(wal)
    {
      hide Inv;
      var removed: bool := *;
      k := Luck(removed, false, false, 0, false, map[], []);
      MoveKeepsInv(w, Go(k));
      w := Step(w, k);
      if removed {
        parked := None;
      }
    }

    /** The parked file goes back by a single rename onto dbPath. */
    method MoveBack() returns (ok: bool, ghost k: Luck)
      requires Valid() && w.pc == MovingBack
      modifies this
      ensures Stepped(k) && open == old(open)
      ensures w.pc == if ok then Checking else Idle
    {
      hide Inv;
      var renamed: bool := *;
      ok := renamed && parked.Some?;
      k := Luck(renamed, false, false, 0, false, map[], []);
      MoveKeepsInv(w, Go(k));
      w := Step(w, k);
      if ok {
        main, parked := parked, None;
      }
    }

    /** A reopen would make an empty database of a missing file, so the file is looked for first. */
    method CheckFile() returns (ok: bool, ghost k: Luck)
      requires Valid() && w.pc == Checking
      modifies this
      ensures Stepped(k) && Files() == old(Files()) && open == old(open)
      ensures w.pc == if ok then Reopening else Idle
    {
      hide Inv;
      var unknown: bool := *;
      ok := !unknown && main.Some?;
      k := Luck(true, unknown, false, 0, false, map[], []);
      MoveKeepsInv(w, Go(k));
      w := Step(w, k);
    }

    /** rollBack, for every failure after the handle was closed. */
    method RollBack(wasParked: bool, ghost start: World, ghost soFar: seq<Move>)
      returns (result: Result, ghost moves: seq<Move>)
      requires Valid() && w.pc == (if wasParked then MovingBack else Checking)
      requires w == After(start, soFar)
      modifies this
      ensures Valid() && w.pc == Idle && w.result == result && (result == RolledBack || result == Unavailable)
      ensures w == After(start, moves) && soFar <= moves
      ensures result == RolledBack ==>
                open && |moves| == |soFar| + (if wasParked then 3 else 2) && w.notes.stray == old(w).notes.stray &&
                (old(w).notes.settled ==>
                   parked == None && (Served(Files()) == old(w).notes.original <==> Spares(w.notes.stray, old(w).notes.original)))
      ensures result == Unavailable ==>
                !open && (old(w).notes.settled ==> Traced(Files(), w.notes.stray, old(w).notes.original))
    {
      hide Inv, After, Step, Kept, Served, Spares, Traced;
      moves := soFar;
      var ok := true;
      ghost var was, k := w, Luck(true, false, false, 0, false, map[], []);
      if wasParked {
        ok, k := MoveBack();
        AnswerFollows(was, k);
        AfterOneMore(start, moves, k);
        moves := moves + [Go(k)];
      }
      if ok {
        was := w;
        ok, k := CheckFile();
        AnswerFollows(was, k);
        AfterOneMore(start, moves, k);
        moves := moves + [Go(k)];
      }
      if !ok { return Unavailable, moves; }
      was := w;
      ok, k := Reopen(false);
      AnswerFollows(was, k);
      AfterOneMore(start, moves, k);
      moves := moves + [Go(k)];
      result := if ok then RolledBack else Unavailable;
    }

    /** Everything up to the flush: a refusal here has touched nothing but the upload. */
    method Prepare() returns (result: Result, ghost moves: seq<Move>)
      requires Valid() && w.pc == Idle && (upload.Some? ==> NamesDistinct(upload.value))
      modifies this
      ensures Valid() && w == After(old(w), moves)
      ensures open == old(open) && parked == old(parked) && Served(Files()) == Served(old(Files()))
      ensures result != Nothing ==> w.pc == Idle && result.Rejected? && w.result == result
      ensures result == Nothing ==>
                w.pc == Closing && parked == None && w.disk.main == Served(w.disk) &&
                old(upload).Some? && IsOurs(old(upload).value) && w.notes.incoming == Strip(old(upload).value) && |moves| == 5
    {
      hide Inv, After, Step, Served, NamesDistinct, Strip, IsOurs;
      moves := [];
      ghost var k := Luck(true, false, false, 0, false, map[], []);
      ghost var was := w;
      AfterNone(w);
      MoveKeepsInv(w, Go(k));
      BeginFollows(w, k);
      AfterOneMore(old(w), moves, k);
      moves := moves + [Go(k)];
      w := Step(w, k);
      was := w;
      result, k := Validate();
      EarlyFollows(was, k);
      AfterOneMore(old(w), moves, k);
      moves := moves + [Go(k)];
      if result != Nothing { return; }
      was := w;
      result, k := StripUpload();
      EarlyFollows(was, k);
      AfterOneMore(old(w), moves, k);
      moves := moves + [Go(k)];
      if result != Nothing { return; }
      was := w;
      result, k := LookForLeftover();
      EarlyFollows(was, k);
      AfterOneMore(old(w), moves, k);
      moves := moves + [Go(k)];
      if result != Nothing { return; }
      was := w;
      result, k := FlushLog();
      EarlyFollows(was, k);
      AfterOneMore(old(w), moves, k);
      moves := moves + [Go(k)];
    }

    /** Park, swap and open, with the way back from every failure. */
    method SwapIn(ghost start: World, ghost soFar: seq<Move>) returns (result: Result, ghost moves: seq<Move>)
      requires Valid() && w.pc == Parking && w.notes.settled && w == After(start, soFar) && |soFar| == 7
      modifies this
      ensures Valid() && w.pc == Idle && w.result == result && w == After(start, moves)
      ensures result == Restored || result == RolledBack || result == Unavailable
      ensures result == Restored ==>
                open && main == Some(old(w).notes.incoming) && (parked == None || parked == old(w).notes.original) &&
                (CleanlyServes(Files(), old(w).notes.incoming) <==> !(old(w).notes.left && old(w).notes.blind)) &&
                |moves| == 11 && soFar <= moves && (moves[10].Go? && moves[10].luck.ok ==> parked == None)
      ensures result == RolledBack ==>
                open && parked == None && w.notes.stray == LeftByOpening(start, moves) &&
                (Served(Files()) == old(w).notes.original <==> Spares(w.notes.stray, old(w).notes.original))
      ensures result == Unavailable ==> !open && Traced(Files(), w.notes.stray, old(w).notes.original)
    {
      hide Inv, After, Step, Served, Kept, CleanlyServes, Spares, Traced, Wipes, LeftByOpening;
      moves := soFar;
      ghost var was, k := w, Luck(true, false, false, 0, false, map[], []);
      var ok;
      ok, k := Park();
      SwapFollows(was, k);
      AfterOneMore(start, moves, k);
      moves := moves + [Go(k)];
      if !ok {
        result, moves := RollBack(false, start, moves);
        ShorterWayBack(start, moves);
        return;
      }
      was := w;
      ok, k := Swap();
      SwapFollows(was, k);
      AfterOneMore(start, moves, k);
      moves := moves + [Go(k)];
      if !ok {
        result, moves := RollBack(true, start, moves);
        ShorterWayBack(start, moves);
        return;
      }
      was := w;
      ok, k := Reopen(true);
      SwapFollows(was, k);
      AfterOneMore(start, moves, k);
      ghost var opening := moves;
      moves := moves + [Go(k)];
      if !ok {
        ghost var failed := moves;
        result, moves := RollBack(true, start, moves);
        SameStart(failed, moves, opening, Go(k));
        OpeningLeaves(start, moves, opening, k);
        return;
      }
      was := w;
      k := Discard();
      DiscardFollows(was, k);
      AfterOneMore(start, moves, k);
      moves := moves + [Go(k)];
      result := Restored;
    }

    /** Close the handle, clear the log, and swap. */
    method Replace(ghost start: World, ghost soFar: seq<Move>)
      returns (result: Result, ghost left: bool, ghost blind: bool, ghost stray: seq<Database>, ghost moves: seq<Move>)
      requires Valid() && w.pc == Closing && w == After(start, soFar) && |soFar| == 5 && main == Served(Files())
      modifies this
      ensures Valid() && w.pc == Idle && w.result == result && w == After(start, moves)
      ensures result == Restored || result == RolledBack || result == Unavailable
      ensures result == Restored ==>
                open && main == Some(old(w).notes.incoming) && (parked == None || parked == Served(old(Files()))) &&
                (CleanlyServes(Files(), old(w).notes.incoming) <==> !(left && blind))
      ensures result == Restored ==>
                |moves| == 11 && moves[6].Go? && blind == moves[6].luck.unknown &&
                left == (Frames(After(start, moves[..6]).disk) != []) && (moves[10].Go? && moves[10].luck.ok ==> parked == None)
      ensures result == RolledBack ==>
                open && parked == None && stray == LeftByOpening(start, moves) &&
                (Served(Files()) == Served(old(Files())) <==> Spares(stray, Served(old(Files()))))
      ensures result == Unavailable ==>
                !open && stray == w.notes.stray && Traced(Files(), stray, Served(old(Files())))
    {
      hide Inv, After, Step, Served, Kept, CleanlyServes, Frames, Spares, Traced;
      blind := false;
      ghost var was, k := w, Luck(true, false, false, 0, false, map[], []);
      k := CloseHandle();
      CloseFollows(was, k);
      AfterOneMore(start, soFar, k);
      ghost var closing := soFar + [Go(k)];
      left := Frames(Files()) != [];
      was := w;
      var ok;
      ok, blind, k := ClearLog();
      SwapFollows(was, k);
      AfterOneMore(start, closing, k);
      ghost var cleared := closing + [Go(k)];
      if ok {
        result, moves := SwapIn(start, cleared);
        SameStart(cleared, moves, closing, Go(k));
      } else {
        result, moves := RollBack(false, start, cleared);
      }
      stray := w.notes.stray;
    }

    /** The restore. What each answer means for the caller is stated outright: success serves exactly
        the stripped upload unless the close left frames and the look at the log failed, a refusal
        changed nothing, a rollback serves the original unless the open of the replacement failed and
        the last frame it left differs, and unavailable has the original on disk under the same
        condition or still parked. left and blind are what the sixth and seventh of its moves found,
        stray what failed opens left in the log. */
    method Import() returns (result: Result, ghost left: bool, ghost blind: bool, ghost stray: seq<Database>, ghost moves: seq<Move>)
      requires Valid() && w.pc == Idle && (upload.Some? ==> NamesDistinct(upload.value))
      modifies this
      ensures Valid() && w.pc == Idle && w.result == result && w == After(old(w), moves)
      ensures result != Nothing
      ensures !result.Rejected? ==> old(upload).Some? && IsOurs(old(upload).value)
      ensures old(parked).Some? ==> result.Rejected?
      ensures result.Rejected? ==>
                open == old(open) && parked == old(parked) && Served(Files()) == Served(old(Files()))
      ensures result == Restored ==>
                old(upload).Some? && open && main == Some(Strip(old(upload).value)) &&
                (CleanlyServes(Files(), Strip(old(upload).value)) <==> !(left && blind)) &&
                (parked == None || parked == Served(old(Files())))
      ensures result == Restored ==>
                |moves| == 11 && moves[6].Go? && blind == moves[6].luck.unknown &&
                left == (Frames(After(old(w), moves[..6]).disk) != [])
      ensures result == Restored && moves[10].Go? && moves[10].luck.ok ==> parked == None
      ensures result == RolledBack ==>
                open && parked == None && stray == LeftByOpening(old(w), moves) &&
                (Served(Files()) == Served(old(Files())) <==> Spares(stray, Served(old(Files()))))
      ensures result == Unavailable ==>
                !open && stray == w.notes.stray && Traced(Files(), stray, Served(old(Files())))
    {
      hide Inv, After, Step, Served, NamesDistinct, Strip, Kept, CleanlyServes, Spares, Traced, IsOurs;
      left, blind, stray := false, false, [];
      result, moves := Prepare();
      if result == Nothing {
        result, left, blind, stray, moves := Replace(old(w), moves);
      }
    }
  }

  /** What the tenth of an import's moves, the open of the replacement, left in the log when the import
      went the longest way back. */
  ghost function LeftByOpening(start: World, moves: seq<Move>): seq<Database> {
    if |moves| == 13 && moves[9].Go? && !Wipes(After(start, moves[..9]).disk, moves[9].luck)
    then moves[9].luck.migrated
    else []
  }

  lemma OpeningLeaves(start: World, moves: seq<Move>, before: seq<Move>, k: Luck)
    requires |moves| >= 10 && moves[..9] == before && moves[9] == Go(k)
    ensures |moves| == 13 ==> LeftByOpening(start, moves) == if Wipes(After(start, before).disk, k) then [] else k.migrated
  {}

  lemma ShorterWayBack(start: World, moves: seq<Move>)
    ensures |moves| < 13 ==> LeftByOpening(start, moves) == []
  {}

  lemma SameStart(some: seq<Move>, all: seq<Move>, before: seq<Move>, m: Move)
    requires some == before + [m]
    ensures some <= all ==> all[..|before|] == before && all[|before|] == m
  {
    if some <= all {
      assert all[..|some|] == some;
      assert all[..|before|] == some[..|before|] && all[|before|] == some[|before|];
    }
  }

  lemma AfterNone(w: World)
    ensures After(w, []) == w
  {}

  lemma BeginFollows(w: World, k: Luck)
    requires w.pc == Idle
    ensures Step(w, k) == w.(pc := Validating)
  {}

  lemma EarlyFollows(w: World, k: Luck)
    requires Inv(w) && BeforeClose(w.pc) && w.pc != Closing
    ensures var e := Step(w, k);
            Served(e.disk) == Served(w.disk) && e.open == w.open && e.disk.parked == w.disk.parked &&
            (w.pc != Stripping ==> e.notes.incoming == w.notes.incoming) &&
            (e.pc == Closing ==> e.disk.parked == None && e.disk.main == Served(e.disk))
  {
    RefusalTouchesNothing(w, k);
  }

  lemma CloseFollows(w: World, k: Luck)
    requires Inv(w) && w.pc == Closing && w.disk.main == Served(w.disk)
    ensures var e := Step(w, k); e.notes.settled && e.notes.original == Served(w.disk) && e.notes.incoming == w.notes.incoming && !e.open
  {}

  lemma SwapFollows(w: World, k: Luck)
    requires Inv(w) && (w.pc == ClearingWal || w.pc == Parking || w.pc == Swapping || w.pc == Opening)
    ensures var e := Step(w, k);
            e.notes.settled == w.notes.settled && e.notes.original == w.notes.original && e.notes.incoming == w.notes.incoming && e.notes.left == w.notes.left &&
            (w.pc != ClearingWal ==> e.notes.blind == w.notes.blind) &&
            (e.pc == Discarding ==> e.open && e.disk.main == Some(w.notes.incoming) &&
                                    (CleanlyServes(e.disk, w.notes.incoming) <==> !(e.notes.left && e.notes.blind)))
    ensures Step(w, k).notes.stray == if w.pc == Opening && !k.ok && !Wipes(w.disk, k) then k.migrated else []
  {
    hide OpenFails, Checkpoint;
  }

  lemma DiscardFollows(w: World, k: Luck)
    requires Inv(w) && w.pc == Discarding
    ensures var e := Step(w, k);
            e.disk.main == w.disk.main && e.disk.wal == w.disk.wal &&
            (w.notes.settled ==> e.disk.parked == None || e.disk.parked == w.notes.original)
    ensures CleanlyServes(Step(w, k).disk, w.notes.incoming) <==> CleanlyServes(w.disk, w.notes.incoming)
  {}

  lemma AnswerFollows(w: World, k: Luck)
    requires Inv(w) && (w.pc == MovingBack || w.pc == Checking || w.pc == Reopening)
    ensures var e := Step(w, k);
            e.notes.settled == w.notes.settled && e.notes.original == w.notes.original && !w.open &&
            ((w.pc == Reopening && !k.ok) || e.notes.stray == w.notes.stray) &&
            (e.pc == Idle ==>
               (e.result == RolledBack || e.result == Unavailable) &&
               (w.pc != Reopening ==> e.result == Unavailable) &&
               (e.open <==> e.result == RolledBack) &&
               (e.result == RolledBack && w.notes.settled ==>
                  e.disk.parked == None && (Served(e.disk) == w.notes.original <==> Spares(e.notes.stray, w.notes.original))) &&
               (e.result == Unavailable && w.notes.settled ==> Traced(e.disk, e.notes.stray, w.notes.original)))
  {
    if Step(w, k).pc == Idle {
      AnswerMeans(w, k);
    }
    hide OpenFails, Checkpoint, Traced, Spares;
  }

  lemma AfterOneMore(start: World, moves: seq<Move>, k: Luck)
    ensures After(start, moves + [Go(k)]) == Step(After(start, moves), k)
  {
    assert (moves + [Go(k)])[..|moves|] == moves;
  }
}
