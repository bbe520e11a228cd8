/** The submissions and spam_signals tables as the store changes them, a statement at a time. */
module QuarantineStore {
  import opened Basics
  import opened Bytes
  import opened Scopes
  import opened ScreenScore
  import opened Quarantine

  datatype Error = NotFound | Gone | Broken

  datatype Result<T> = Ok(value: T) | Err(error: Error)

  datatype Clearing = Cleared(n: nat) | Mismatch(expected: nat, actual: nat) | NotCleared

  const BATCH: nat := 500

  class Submissions {
    var rows: map<nat, Row>
    var signals: map<nat, seq<Signal>>

    ghost function Current(): Db
      reads this
    {
      Db(rows, signals)
    }

    constructor ()
      ensures Current() == NOTHING.db
    {
      rows, signals := map[], map[];
    }

    /** A transaction that does not commit leaves what was there before it began. */
    method RollBack(savedRows: map<nat, Row>, savedSignals: map<nat, seq<Signal>>)
      modifies this
      ensures Current() == Db(savedRows, savedSignals)
    {
      rows, signals := savedRows, savedSignals;
    }

    method InsertSignal(id: nat, signal: Signal) returns (ok: bool)
      modifies this`signals
      ensures Current() == if ok then AddSignals(old(Current()), id, [signal]) else old(Current())
    {
      ok := Attempt();
      if ok {
        signals := signals[id := (if id in signals then signals[id] else []) + [signal]];
      }
    }

    /** Row and breakdown together or not at all. */
    method CreateHeldSubmission(id: nat, form: string, now: nat, score: int, threshold: int, breakdown: seq<Signal>) returns (ok: bool)
      modifies this
      ensures ok ==> id !in old(rows) && Current() == CreateHeld(old(Current()), id, form, now, score, threshold, breakdown)
      ensures !ok ==> Current() == old(Current())
    {
      var savedRows, savedSignals := rows, signals;
      ok := Attempt();
      if !ok || id in rows { return false; }
      rows := rows[id := HeldRow(form, now, score, threshold)];
      ghost var inserted := Current();
      for i := 0 to |breakdown|
        invariant Current() == AddSignals(inserted, id, breakdown[..i])
      {
        ok := InsertSignal(id, breakdown[i]);
        if !ok {
          RollBack(savedRows, savedSignals);
          return;
        }
        OneMoreSignal(inserted, id, breakdown, i);
      }
      assert breakdown[..|breakdown|] == breakdown;
      ok := Attempt();
      if !ok { RollBack(savedRows, savedSignals); }
    }

    method CreateSubmission(id: nat, form: string, now: nat, score: int, threshold: int) returns (ok: bool)
      modifies this`rows
      ensures ok ==> id !in old(rows) && Current() == CreateAccepted(old(Current()), id, form, now, score, threshold)
      ensures !ok ==> Current() == old(Current())
    {
      ok := Attempt();
      if !ok || id in rows { return false; }
      rows := rows[id := AcceptedRow(form, now, score, threshold)];
    }

    /** classifyMissingHeld and classifyMarkSpamMiss: a row that is there is merely on the other side. */
    method Classify(id: nat) returns (error: Error)
      ensures error == Broken || error == if id in rows then NotFound else Gone
    {
      var ok := Attempt();
      error := if !ok then Broken else if id in rows then NotFound else Gone;
    }

    /** One statement, so what it returns is what it did. */
    method RestoreSubmission(id: nat) returns (restored: Result<Row>)
      modifies this`rows
      ensures restored.Ok? ==> IsHeld(old(Current()), id) && Current() == Restore(old(Current()), id) && rows[id] == restored.value
      ensures restored.Err? ==> Current() == old(Current())
      ensures restored.Err? && restored.error != Broken ==>
                !IsHeld(old(Current()), id) && (restored.error == Gone <==> id !in old(rows))
    {
      var ok := Attempt();
      if !ok { return Err(Broken); }
      if id in rows && rows[id].held {
        rows := rows[id := rows[id].(held := false, read := false, heldAt := 0)];
        return Ok(rows[id]);
      }
      var error := Classify(id);
      restored := Err(error);
    }

    /** The row and the manual signal go together or not at all. */
    method MarkSpam(id: nat, actor: bytes, now: nat) returns (marked: Result<Row>)
      modifies this
      ensures marked.Ok? ==> IsAccepted(old(Current()), id) && Current() == Mark(old(Current()), id, actor, now) && rows[id] == marked.value
      ensures marked.Err? ==> Current() == old(Current())
      ensures marked.Err? && marked.error != Broken ==>
                !IsAccepted(old(Current()), id) && (marked.error == Gone <==> id !in old(rows))
    {
      var savedRows, savedSignals := rows, signals;
      var ok := Attempt();
      if !ok { return Err(Broken); }
      if id !in rows || rows[id].held {
        var error := Classify(id);
        return Err(error);
      }
      rows := rows[id := rows[id].(held := true, read := false, heldAt := now)];
      marked := Ok(rows[id]);
      ok := InsertSignal(id, ManualSignal(actor));
      if ok { ok := Attempt(); }
      if !ok {
        RollBack(savedRows, savedSignals);
        marked := Err(Broken);
      }
    }

    method MarkNotified(id: nat) returns (ok: bool)
      modifies this`rows
      ensures Current() == if ok then Quarantine.MarkNotified(old(Current()), id) else old(Current())
    {
      ok := Attempt();
      if ok && id in rows {
        rows := rows[id := rows[id].(notified := true)];
      }
    }

    method DeleteRows(gone: set<nat>)
      modifies this
      ensures Current() == Remove(old(Current()), gone)
    {
      rows, signals := rows - gone, signals - gone;
    }

    /** One DELETE of a batch; it has gone even when its count cannot be read. */
    method DeleteBatch(chunk: seq<nat>, forms: FormScope) returns (n: nat, ok: bool, ghost went: bool)
      modifies this
      ensures Current() == if went then Remove(old(Current()), HeldAmong(old(Current()), chunk, forms)) else old(Current())
      ensures ok ==> went && n == |HeldAmong(old(Current()), chunk, forms)|
    {
      n, went := 0, false;
      ok := Attempt();
      if !ok { return; }
      var gone := set id | id in rows && id in chunk && rows[id].held && forms.Allows(rows[id].form);
      assert gone == HeldAmong(Current(), chunk, forms);
      DeleteRows(gone);
      went := true;
      ok := Attempt();
      if ok { n := |gone|; }
    }

    /** Batches of 500, each on its own: what went is exactly what was held, listed so far and in
        scope, each row counted once however often it is listed. A failed statement stops it with the
        total so far; a count that could not be read leaves its own batch out of that total. */
    method DeleteHeld(ids: seq<nat>, forms: FormScope) returns (total: nat, ok: bool, ghost done: nat, ghost counted: nat)
      modifies this
      ensures counted <= done <= |ids| && done - counted <= BATCH && (ok ==> counted == done == |ids|)
      ensures done % 500 == 0 || done == |ids|
      ensures Current() == Remove(old(Current()), HeldAmong(old(Current()), ids[..done], forms))
      ensures total == |HeldAmong(old(Current()), ids[..counted], forms)|
    {
      hide HeldAmong, Remove;
      ghost var start := Current();
      var rest := ids;
      total, ok, done, counted := 0, true, 0, 0;
      NothingAmong(start, ids, forms);
      while rest != []
        invariant done == counted <= |ids| && rest == ids[done..] && (done % 500 == 0 || done == |ids|)
        invariant Current() == Remove(start, HeldAmong(start, ids[..done], forms))
        invariant total == |HeldAmong(start, ids[..done], forms)|
        decreases |rest|
      {
        var n := if |rest| < BATCH then |rest| else BATCH;
        var chunk := rest[..n];
        rest := rest[n..];
        NextBatch(start, ids, done, n, forms);
        var affected;
        ghost var went;
        affected, ok, went := DeleteBatch(chunk, forms);
        if went { done := done + n; }
        if !ok { return; }
        counted := done;
        total := total + affected;
      }
    }

    method CountHeld(f: HeldFilter) returns (n: nat, ok: bool)
      ensures ok ==> n == |Selected(Current(), f)|
    {
      ok := Attempt();
      n := if ok then |set id | id in rows && f.Selects(rows[id])| else 0;
      assert (set id | id in rows && f.Selects(rows[id])) == Selected(Current(), f);
    }

    /** deleteHeldWhere. Outside a transaction a delete whose count cannot be read has still gone. */
    method DeleteHeldWhere(f: HeldFilter) returns (n: nat, ok: bool, ghost went: bool)
      modifies this
      ensures Current() == if went then Remove(old(Current()), Selected(old(Current()), f)) else old(Current())
      ensures ok ==> went && n == |Selected(old(Current()), f)|
    {
      n, went := 0, false;
      ok := Attempt();
      if !ok { return; }
      var gone := set id | id in rows && f.Selects(rows[id]);
      assert gone == Selected(Current(), f);
      DeleteRows(gone);
      went := true;
      ok := Attempt();
      if ok { n := |gone|; }
    }

    /** All that the filter selects if there are exactly as many as the caller expects, else nothing. */
    method ClearHeld(f: HeldFilter, expected: nat) returns (result: Clearing)
      modifies this
      ensures result.Cleared? ==>
                result.n == expected == |Selected(old(Current()), f)| && Current() == Remove(old(Current()), Selected(old(Current()), f))
      ensures result.Mismatch? ==>
                result.expected == expected != result.actual == |Selected(old(Current()), f)| && Current() == old(Current())
      ensures result.NotCleared? ==> Current() == old(Current())
    {
      var savedRows, savedSignals := rows, signals;
      var ok := Attempt();
      if !ok { return NotCleared; }
      var actual;
      actual, ok := CountHeld(f);
      if !ok { return NotCleared; }
      if actual != expected { return Mismatch(expected, actual); }
      var n;
      ghost var went;
      n, ok, went := DeleteHeldWhere(f);
      if ok {
        // The code also refuses when n and actual differ; here they cannot.
        assert n == actual;
        ok := Attempt();
      }
      if !ok {
        RollBack(savedRows, savedSignals);
        return NotCleared;
      }
      result := Cleared(n);
    }

    method DeleteAllHeld() returns (n: nat, ok: bool, ghost went: bool)
      modifies this
      ensures ok ==> went && n == |Selected(old(Current()), HeldFilter(ALL_FORMS, 0))|
      ensures Current() == if went then Remove(old(Current()), Selected(old(Current()), HeldFilter(ALL_FORMS, 0))) else old(Current())
      ensures went ==> forall id :: id in rows <==> IsAccepted(old(Current()), id)
    {
      n, ok, went := DeleteHeldWhere(HeldFilter(ALL_FORMS, 0));
    }

    method PurgeHeldOlderThan(cutoff: nat) returns (n: nat, ok: bool, ghost went: bool)
      modifies this
      ensures ok ==> went && n == |Selected(old(Current()), HeldFilter(ALL_FORMS, cutoff))|
      ensures Current() == if went then Remove(old(Current()), Selected(old(Current()), HeldFilter(ALL_FORMS, cutoff))) else old(Current())
    {
      n, ok, went := DeleteHeldWhere(HeldFilter(ALL_FORMS, cutoff));
    }
  }

  lemma OneMoreSignal(db: Db, id: nat, breakdown: seq<Signal>, i: nat)
    requires i < |breakdown|
    ensures AddSignals(AddSignals(db, id, breakdown[..i]), id, [breakdown[i]]) == AddSignals(db, id, breakdown[..i + 1])
  {
    assert breakdown[..i + 1] == breakdown[..i] + [breakdown[i]];
    assert (SignalsOf(db, id) + breakdown[..i]) + [breakdown[i]] == SignalsOf(db, id) + breakdown[..i + 1];
    if i == 0 {
      assert breakdown[..1] == [breakdown[0]];
    }
  }

  lemma NothingAmong(db: Db, ids: seq<nat>, forms: FormScope)
    ensures HeldAmong(db, ids[..0], forms) == {}
    ensures Remove(db, {}) == db
  {}

  lemma BatchIsTheRest(db: Db, ids: seq<nat>, done: nat, n: nat, forms: FormScope)
    requires done + n <= |ids|
    ensures var a := HeldAmong(db, ids[..done], forms);
            HeldAmong(Remove(db, a), ids[done..][..n], forms) == HeldAmong(db, ids[..done + n], forms) - a
    ensures HeldAmong(db, ids[..done], forms) <= HeldAmong(db, ids[..done + n], forms)
  {
    assert ids[..done + n] == ids[..done] + ids[done..][..n];
    forall id ensures id in ids[..done + n] <==> id in ids[..done] || id in ids[done..][..n] {}
  }

  lemma RemoveInTwo(db: Db, a: set<nat>, all: set<nat>)
    requires a <= all
    ensures Remove(Remove(db, a), all - a) == Remove(db, all)
    ensures |all| == |a| + |all - a|
  {
    assert (db.rows - a) - (all - a) == db.rows - all;
    assert (db.signals - a) - (all - a) == db.signals - all;
    assert all == a + (all - a);
  }

  lemma NextBatch(db: Db, ids: seq<nat>, done: nat, n: nat, forms: FormScope)
    requires done + n <= |ids|
    ensures var a := HeldAmong(db, ids[..done], forms);
            var b := HeldAmong(Remove(db, a), ids[done..][..n], forms);
            |HeldAmong(db, ids[..done + n], forms)| == |a| + |b| &&
            Remove(Remove(db, a), b) == Remove(db, HeldAmong(db, ids[..done + n], forms))
    ensures ids[done..][n..] == ids[done + n..]
  {
    hide HeldAmong, Remove;
    BatchIsTheRest(db, ids, done, n, forms);
    RemoveInTwo(db, HeldAmong(db, ids[..done], forms), HeldAmong(db, ids[..done + n], forms));
  }
}
