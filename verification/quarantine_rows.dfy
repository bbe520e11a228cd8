/** Row by row: where a submission's row comes from, which are deleted, and when a delivery starts. */
module QuarantineRows {
  import opened Bytes
  import opened Scopes
  import opened ScreenScore
  import opened Quarantine

  // ---- deletions

  /** A batch delete takes exactly the rows that are listed, held, and of a form in scope; everything else,
      and the breakdown of everything else, is left as it was. */
  lemma ListedAreDeletedExactlyWhen(db: Db, list: seq<nat>, forms: FormScope, id: nat)
    requires id in db.rows
    ensures var d := Remove(db, HeldAmong(db, list, forms));
            (id !in d.rows <==> id in list && db.rows[id].held && (forms.all || db.rows[id].form in forms.ids)) &&
            (id in d.rows ==> d.rows[id] == db.rows[id] && SignalsOf(d, id) == SignalsOf(db, id)) &&
            (id !in d.rows ==> id !in d.signals)
    ensures Remove(db, HeldAmong(db, list, forms)).rows.Keys <= db.rows.Keys
  {}

  /** A delete by filter takes exactly the held rows of a form in scope that entered quarantine before the
      cutoff, if there is one. */
  lemma FilteredAreDeletedExactlyWhen(db: Db, f: HeldFilter, id: nat)
    requires id in db.rows
    ensures var d, r := Remove(db, Selected(db, f)), db.rows[id];
            (id !in d.rows <==>
               r.held && (f.forms.all || r.form in f.forms.ids) &&
               (f.heldBefore == 0 || (if r.heldAt != 0 then r.heldAt else r.created) < f.heldBefore)) &&
            (id in d.rows ==> d.rows[id] == r && SignalsOf(d, id) == SignalsOf(db, id)) &&
            (id !in d.rows ==> id !in d.signals)
    ensures Remove(db, Selected(db, f)).rows.Keys <= db.rows.Keys
  {}

  /** What deletes a row in a run. */
  predicate EndsRow(r: Row, e: Event, id: nat) {
    match e
    case Delete(ids) => id in ids
    case DeleteHeld(list, forms) => id in list && r.held && (forms.all || r.form in forms.ids)
    case Clear(f) =>
      r.held && (f.forms.all || r.form in f.forms.ids) &&
      (f.heldBefore == 0 || (if r.heldAt != 0 then r.heldAt else r.created) < f.heldBefore)
    case _ => false
  }

  /** A row goes in a step exactly when it is deleted by name, or is held and listed, or is held and
      selected; and until then it is held exactly as marks and restores leave it, and read as it was set,
      anew from each mark and restore. */
  lemma RowEndsExactlyWhen(w: World, e: Event, id: nat)
    requires id in w.db.rows && w.db.rows.Keys <= w.used
    ensures id !in Apply(w, e).db.rows <==> EndsRow(w.db.rows[id], e, id)
    ensures id in Apply(w, e).db.rows ==>
              var was, now := w.db.rows[id], Apply(w, e).db.rows[id];
              (now.held <==> if e.MarkIt? && e.id == id then true else if e.RestoreIt? && e.id == id then false else was.held) &&
              now.read == (if e.SetRead? && e.id == id then e.read
                           else if (e.MarkIt? && e.id == id && !was.held) || (e.RestoreIt? && e.id == id && was.held) then false
                           else was.read)
  {
    hide InFlight;
    match e
    case DeleteHeld(list, forms) => ListedAreDeletedExactlyWhen(w.db, list, forms, id);
    case Clear(f) => FilteredAreDeletedExactlyWhen(w.db, f, id);
    case _ =>
  }

  // ---- the row and its arrival

  predicate ArrivedAs(r: Row, e: Event) {
    e.Arrive? && r.form == e.form && r.created == e.now && r.score == e.verdict.score && r.threshold == e.verdict.threshold
  }

  lemma NewRowArrives(w: World, e: Event, id: nat)
    requires id in Apply(w, e).db.rows && id !in w.db.rows
    ensures ArrivedAs(Apply(w, e).db.rows[id], e) && e.id == id && id !in w.used
    ensures var r := Apply(w, e).db.rows[id];
            r.held == e.verdict.hold && !r.read && r.emails == 0 && r.hooks == 0 &&
            r.notified == !e.verdict.hold && r.heldAt == (if e.verdict.hold then e.now else 0)
    ensures w.db.signals.Keys <= w.db.rows.Keys ==>
              SignalsOf(Apply(w, e).db, id) == if e.verdict.hold then e.verdict.signals else []
  {
    hide InFlight;
  }

  /** Every row goes back to the one arrival of its id, with that submission's form, time, score and
      threshold, whatever was done to it since. */
  lemma {:induction false} RowTracesToItsArrival(run: seq<Event>, id: nat) returns (a: nat)
    requires AllPossible(run) && id in After(run).db.rows
    ensures a < |run| && ArrivedAs(After(run).db.rows[id], run[a]) && run[a].id == id && id !in After(run[..a]).used
  {
    hide Apply, RowsOk, Possible;
    assert run != [];
    var n := |run| - 1;
    var w := After(run[..n]);
    RowsAreAlwaysOk(run[..n]);
    if id in w.db.rows {
      a := RowTracesToItsArrival(run[..n], id);
      assert run[..n][..a] == run[..a];
      NotifiedNeverFalls(w, run[n], id);
    } else {
      a := n;
      NewRowArrives(w, run[n], id);
    }
  }

  // ---- deliveries

  /** A delivery starts exactly for a submission that is accepted on arrival, and for a restored one nobody
      was notified of. */
  lemma DeliveryStartsExactlyWhen(w: World, e: Event, id: nat)
    requires !e.Land?
    ensures InFlight(Apply(w, e).flights, id) ==
            InFlight(w.flights, id) +
            if (e.Arrive? && e.id == id && id !in w.used && !e.verdict.hold) ||
               (e.RestoreIt? && e.id == id && id in w.db.rows && w.db.rows[id].held && !w.db.rows[id].notified)
            then 1 else 0
  {
    hide InFlight;
    match e
    case Arrive(i, _, _, _) => OneMoreFlight(w.flights, Flight(i, false), id);
    case RestoreIt(i) => OneMoreFlight(w.flights, Flight(i, true), id);
    case _ =>
  }

  /** What landing does: the delivery is over, and the row shows the email and the webhook that went, and
      is notified once a recorded email's mark lands. */
  lemma LandingShows(w: World, i: nat, o: Outcome)
    requires i < |w.flights| && w.flights[i].id in w.db.rows
    ensures var f, d := w.flights[i], Apply(w, Land(i, o));
            InFlight(d.flights, f.id) == InFlight(w.flights, f.id) - 1 && f.id in d.db.rows &&
            var was, now := w.db.rows[f.id], d.db.rows[f.id];
            now.emails == was.emails + (if o.emailed then 1 else 0) && now.hooks == was.hooks + (if o.hooked then 1 else 0) &&
            now.notified == (was.notified || (f.records && o.emailed && o.marked)) &&
            now.held == was.held && now.read == was.read && now.heldAt == was.heldAt
  {
    hide InFlight;
    OneFlightLess(w.flights, i, w.flights[i].id);
  }

  /** Marking notified does that, to that row, and nothing else. */
  lemma NotifyingIsRecorded(db: Db, id: nat)
    ensures var d := MarkNotified(db, id);
            d.signals == db.signals && d.rows.Keys == db.rows.Keys &&
            forall k :: k in db.rows ==> d.rows[k] == if k == id then db.rows[k].(notified := true) else db.rows[k]
  {}

  /** Marking leaves who did it, as a signal without weight. */
  lemma MarkNamesItsActor(db: Db, id: nat, actor: bytes, now: nat)
    requires IsAccepted(db, id)
    ensures var s := SignalsOf(Mark(db, id, actor, now), id);
            s == SignalsOf(db, id) + [Signal(Manual, [], actor, 0)]
    ensures forall k :: k in db.rows && k != id ==> k in Mark(db, id, actor, now).rows && Mark(db, id, actor, now).rows[k] == db.rows[k]
  {}

  /** Restoring gives a held row back, unread and with no hold time, and changes nothing else. */
  lemma RestoringReleases(db: Db, id: nat)
    requires IsHeld(db, id)
    ensures var d := Restore(db, id);
            d.signals == db.signals && d.rows.Keys == db.rows.Keys &&
            forall k :: k in db.rows ==>
              d.rows[k] == if k == id then db.rows[k].(held := false, read := false, heldAt := 0) else db.rows[k]
  {}

  /** And on a row that is not held, neither does anything. */
  lemma WrongSideIsUntouched(db: Db, id: nat, actor: bytes, now: nat)
    ensures !(id in db.rows && db.rows[id].held) ==> Restore(db, id) == db
    ensures !(id in db.rows && !db.rows[id].held) ==> Mark(db, id, actor, now) == db
  {}
}
