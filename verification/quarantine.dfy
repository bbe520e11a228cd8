/** Submissions in and out of quarantine: what every run keeps, and who is told how often. */
module Quarantine {
  import opened Basics
  import opened Bytes
  import opened Scopes
  import opened ScreenScore
  import Screen

  /** One submissions row. Times are whole seconds, 0 for none. The last four fields are history no
      column keeps: emails that went, those whose mark did not land, restores made while a delivery
      for the row was still under way, and webhook calls. */
  datatype Row = Row(
    form: string, created: nat, held: bool, heldAt: nat, score: int, threshold: int, read: bool, notified: bool,
    emails: nat, unrecorded: nat, overlaps: nat, hooks: nat)

  /** spam_signals by submission, each list in insertion order. */
  datatype Db = Db(rows: map<nat, Row>, signals: map<nat, seq<Signal>>)

  function SignalsOf(db: Db, id: nat): seq<Signal> {
    if id in db.signals then db.signals[id] else []
  }

  /** quarantinedSinceExpr: held_at, or created_at where none was recorded. */
  function Since(r: Row): nat {
    if r.heldAt == 0 then r.created else r.heldAt
  }

  datatype HeldFilter = HeldFilter(forms: FormScope, heldBefore: nat) {
    predicate Selects(r: Row) {
      r.held && forms.Allows(r.form) && (heldBefore == 0 || Since(r) < heldBefore)
    }
  }

  const ALL_FORMS := FormScope(true, [])

  function Selected(db: Db, f: HeldFilter): set<nat> {
    set id | id in db.rows && f.Selects(db.rows[id])
  }

  function HeldAmong(db: Db, ids: seq<nat>, forms: FormScope): set<nat> {
    set id | id in db.rows && id in ids && db.rows[id].held && forms.Allows(db.rows[id].form)
  }

  // ---- the operations

  /** Deleting rows takes their signals with them. */
  function Remove(db: Db, ids: set<nat>): Db {
    Db(db.rows - ids, db.signals - ids)
  }

  function AcceptedRow(form: string, now: nat, score: int, threshold: int): Row {
    Row(form, now, false, 0, score, threshold, false, true, 0, 0, 0, 0)
  }

  function HeldRow(form: string, now: nat, score: int, threshold: int): Row {
    Row(form, now, true, now, score, threshold, false, false, 0, 0, 0, 0)
  }

  function AddSignals(db: Db, id: nat, more: seq<Signal>): Db {
    if more == [] then db else db.(signals := db.signals[id := SignalsOf(db, id) + more])
  }

  function CreateAccepted(db: Db, id: nat, form: string, now: nat, score: int, threshold: int): Db {
    db.(rows := db.rows[id := AcceptedRow(form, now, score, threshold)])
  }

  function CreateHeld(db: Db, id: nat, form: string, now: nat, score: int, threshold: int, signals: seq<Signal>): Db {
    AddSignals(db.(rows := db.rows[id := HeldRow(form, now, score, threshold)]), id, signals)
  }

  predicate IsHeld(db: Db, id: nat) {
    id in db.rows && db.rows[id].held
  }

  predicate IsAccepted(db: Db, id: nat) {
    id in db.rows && !db.rows[id].held
  }

  function Restore(db: Db, id: nat): Db {
    if IsHeld(db, id) then db.(rows := db.rows[id := db.rows[id].(held := false, read := false, heldAt := 0)]) else db
  }

  /** The one signal an operator leaves: no weight, so the breakdown still adds up. */
  function ManualSignal(actor: bytes): Signal {
    Signal(Manual, [], actor, 0)
  }

  function Mark(db: Db, id: nat, actor: bytes, now: nat): Db {
    if IsAccepted(db, id)
    then AddSignals(db.(rows := db.rows[id := db.rows[id].(held := true, read := false, heldAt := now)]), id, [ManualSignal(actor)])
    else db
  }

  function MarkNotified(db: Db, id: nat): Db {
    if id in db.rows then db.(rows := db.rows[id := db.rows[id].(notified := true)]) else db
  }

  // ---- runs

  /** A delivery under way. The one a restore starts records its email; the one an accepted
      submission starts has nothing to record. */
  datatype Flight = Flight(id: nat, records: bool)

  datatype Outcome = Outcome(emailed: bool, hooked: bool, marked: bool)

  /** Ids are UUIDs: used ones are never drawn again. */
  datatype World = World(db: Db, used: set<nat>, flights: seq<Flight>)

  datatype Event =
    | Arrive(id: nat, form: string, now: nat, verdict: Screen.Verdict)
    | RestoreIt(id: nat)
    | MarkIt(id: nat, actor: bytes, now: nat)
    | Land(i: nat, outcome: Outcome)
    | SetRead(id: nat, read: bool)
    | Delete(ids: set<nat>)
    | DeleteHeld(list: seq<nat>, forms: FormScope)
    | Clear(filter: HeldFilter)

  function InFlight(flights: seq<Flight>, id: nat): nat {
    if flights == [] then 0
    else InFlight(flights[..|flights| - 1], id) + if flights[|flights| - 1].id == id then 1 else 0
  }

  function Arrival(w: World, id: nat, form: string, now: nat, v: Screen.Verdict): World {
    if id in w.used then w
    else if v.hold then World(CreateHeld(w.db, id, form, now, v.score, v.threshold, v.signals), w.used + {id}, w.flights)
    else World(CreateAccepted(w.db, id, form, now, v.score, v.threshold), w.used + {id}, w.flights + [Flight(id, false)])
  }

  /** The restore handler: a delivery starts only if the row was never told to be notified. */
  function RestoreAndDeliver(w: World, id: nat): World {
    if !IsHeld(w.db, id) then w
    else
      var db := Restore(w.db, id);
      var r := db.rows[id];
      if r.notified then w.(db := db)
      else
        var again := r.(overlaps := r.overlaps + if InFlight(w.flights, id) > 0 then 1 else 0);
        w.(db := db.(rows := db.rows[id := again]), flights := w.flights + [Flight(id, true)])
  }

  function Landed(r: Row, records: bool, o: Outcome): Row {
    r.(emails := r.emails + (if o.emailed then 1 else 0),
       hooks := r.hooks + (if o.hooked then 1 else 0),
       unrecorded := r.unrecorded + (if o.emailed && records && !o.marked then 1 else 0),
       notified := r.notified || (o.emailed && records && o.marked))
  }

  function LandAt(w: World, i: nat, o: Outcome): World {
    if i >= |w.flights| then w
    else
      var f := w.flights[i];
      var rest := w.flights[..i] + w.flights[i + 1..];
      if f.id !in w.db.rows then w.(flights := rest)
      else w.(flights := rest, db := w.db.(rows := w.db.rows[f.id := Landed(w.db.rows[f.id], f.records, o)]))
  }

  function Apply(w: World, e: Event): World {
    match e
    case Arrive(id, form, now, verdict) => Arrival(w, id, form, now, verdict)
    case RestoreIt(id) => RestoreAndDeliver(w, id)
    case MarkIt(id, actor, now) => w.(db := Mark(w.db, id, actor, now))
    case Land(i, outcome) => LandAt(w, i, outcome)
    case SetRead(id, read) =>
      if id in w.db.rows then w.(db := w.db.(rows := w.db.rows[id := w.db.rows[id].(read := read)])) else w
    case Delete(ids) => w.(db := Remove(w.db, ids))
    case DeleteHeld(list, forms) => w.(db := Remove(w.db, HeldAmong(w.db, list, forms)))
    case Clear(filter) => w.(db := Remove(w.db, Selected(w.db, filter)))
  }

  const NOTHING := World(Db(map[], map[]), {}, [])

  function After(run: seq<Event>): World {
    if run == [] then NOTHING else Apply(After(run[..|run| - 1]), run[|run| - 1])
  }

  /** Clocks run after the epoch, and verdicts are the ones screening gives: Screen.VerdictIsCoherent. */
  predicate Possible(e: Event) {
    match e
    case Arrive(_, _, now, verdict) => now > 0 && Screen.Coherent(verdict)
    case MarkIt(_, _, now) => now > 0
    case _ => true
  }

  predicate AllPossible(run: seq<Event>) {
    forall i :: 0 <= i < |run| ==> Possible(run[i])
  }

  // ---- what every row keeps

  predicate RowOk(r: Row, signals: seq<Signal>) {
    r.created > 0 && (r.held <==> r.heldAt > 0) && (r.held ==> signals != []) && Sum(signals) <= r.score
  }

  predicate RowsOk(db: Db) {
    db.signals.Keys <= db.rows.Keys && forall id :: id in db.rows ==> RowOk(db.rows[id], SignalsOf(db, id))
  }

  lemma NoSignals()
    ensures Sum([]) == 0
  {}

  lemma EventKeepsRowsOk(w: World, e: Event)
    requires RowsOk(w.db) && w.db.rows.Keys <= w.used && Possible(e)
    ensures RowsOk(Apply(w, e).db) && Apply(w, e).db.rows.Keys <= Apply(w, e).used
  {
    hide Sum, AllPositive, InFlight;
    NoSignals();
    SumOfOne();
    match e
    case Arrive(id, _, _, verdict) =>
      assert id !in w.used ==> id !in w.db.signals;
      assert [] + verdict.signals == verdict.signals;
      AcceptedScore(verdict);
    case MarkIt(id, actor, _) =>
    case _ =>
  }

  lemma AcceptedScore(v: Screen.Verdict)
    requires Screen.Coherent(v)
    ensures v.score >= 0
  {
    SumOfPositive(v.signals);
  }

  /** In every reachable state a held submission has the time it was held and a reason to show, an
      accepted one has no hold time, and no breakdown sums to more than the score beside it. */
  lemma {:induction false} RowsAreAlwaysOk(run: seq<Event>)
    requires AllPossible(run)
    ensures RowsOk(After(run).db) && After(run).db.rows.Keys <= After(run).used
  {
    hide Apply, RowsOk, Possible;
    if run == [] {
      NothingIsOk();
    } else {
      RowsAreAlwaysOk(run[..|run| - 1]);
      EventKeepsRowsOk(After(run[..|run| - 1]), run[|run| - 1]);
    }
  }

  lemma NothingIsOk()
    ensures RowsOk(NOTHING.db)
  {}

  // ---- notified

  /** Once a row is notified it stays so, however often it is marked and restored. */
  lemma NotifiedNeverFalls(w: World, e: Event, id: nat)
    requires id in w.db.rows && id in Apply(w, e).db.rows && w.db.rows.Keys <= w.used
    ensures w.db.rows[id].notified ==> Apply(w, e).db.rows[id].notified
    ensures var was, now := w.db.rows[id], Apply(w, e).db.rows[id];
            now.form == was.form && now.created == was.created && now.score == was.score && now.threshold == was.threshold
  {
    hide InFlight;
  }

  /** The emails a row may have had: one, one more for each that was not recorded, and one more for
      each restore that did not wait for the delivery before it. */
  predicate MailOk(r: Row, inFlight: nat) {
    r.emails + inFlight <= (if r.notified || inFlight > 0 then 1 else 0) + r.unrecorded + r.overlaps
  }

  predicate FlightsOk(w: World) {
    forall i :: 0 <= i < |w.flights| ==>
      w.flights[i].id in w.used &&
      (w.flights[i].id in w.db.rows && !w.flights[i].records ==> w.db.rows[w.flights[i].id].notified)
  }

  predicate MailsOk(w: World) {
    w.db.rows.Keys <= w.used && FlightsOk(w) &&
    forall id :: id in w.db.rows ==> MailOk(w.db.rows[id], InFlight(w.flights, id))
  }

  lemma OneMoreFlight(flights: seq<Flight>, f: Flight, id: nat)
    ensures InFlight(flights + [f], id) == InFlight(flights, id) + if f.id == id then 1 else 0
  {
    assert (flights + [f])[..|flights|] == flights;
  }

  lemma {:induction false} FlightsAdd(a: seq<Flight>, b: seq<Flight>, id: nat)
    ensures InFlight(a + b, id) == InFlight(a, id) + InFlight(b, id)
  {
    if b == [] {
      assert a + b == a;
    } else {
      var n := |b| - 1;
      FlightsAdd(a, b[..n], id);
      assert (a + b)[..|a + b| - 1] == a + b[..n];
    }
  }

  lemma OneFlight(f: Flight, id: nat)
    ensures InFlight([f], id) == if f.id == id then 1 else 0
  {
    assert [f][..0] == [];
  }

  lemma OneFlightLess(flights: seq<Flight>, i: nat, id: nat)
    requires i < |flights|
    ensures InFlight(flights[..i] + flights[i + 1..], id) + (if flights[i].id == id then 1 else 0) == InFlight(flights, id)
  {
    FlightsAdd(flights[..i], flights[i + 1..], id);
    FlightsAdd(flights[..i], flights[i..], id);
    FlightsAdd([flights[i]], flights[i + 1..], id);
    OneFlight(flights[i], id);
    hide InFlight;
    SplitAt(flights, i);
  }

  lemma {:induction false} UnusedIsNotFlying(flights: seq<Flight>, id: nat)
    requires forall i :: 0 <= i < |flights| ==> flights[i].id != id
    ensures InFlight(flights, id) == 0
  {
    if flights != [] {
      UnusedIsNotFlying(flights[..|flights| - 1], id);
    }
  }

  lemma ArrivalKeepsMailsOk(w: World, id: nat, form: string, now: nat, v: Screen.Verdict)
    requires MailsOk(w)
    ensures MailsOk(Arrival(w, id, form, now, v))
  {
    hide InFlight;
    if id !in w.used {
      UnusedIsNotFlying(w.flights, id);
      forall x { OneMoreFlight(w.flights, Flight(id, false), x); }
    }
  }

  lemma RestoreKeepsMailsOk(w: World, id: nat)
    requires MailsOk(w)
    ensures MailsOk(RestoreAndDeliver(w, id))
  {
    hide InFlight;
    forall x { OneMoreFlight(w.flights, Flight(id, true), x); }
  }

  lemma LandingKeepsMailsOk(w: World, i: nat, o: Outcome)
    requires MailsOk(w)
    ensures MailsOk(LandAt(w, i, o))
  {
    hide InFlight;
    if i < |w.flights| {
      forall x { OneFlightLess(w.flights, i, x); }
    }
  }

  lemma EventKeepsMailsOk(w: World, e: Event)
    requires MailsOk(w)
    ensures MailsOk(Apply(w, e))
  {
    hide InFlight, Arrival, RestoreAndDeliver, LandAt;
    match e
    case Arrive(id, form, now, verdict) => ArrivalKeepsMailsOk(w, id, form, now, verdict);
    case RestoreIt(id) => RestoreKeepsMailsOk(w, id);
    case Land(i, outcome) => LandingKeepsMailsOk(w, i, outcome);
    case _ =>
  }

  /** Over any run, nobody is emailed about a submission twice unless an email went unrecorded or a
      restore did not wait for the delivery before it. */
  lemma {:induction false} NoSubmissionIsEmailedTwice(run: seq<Event>, id: nat)
    requires id in After(run).db.rows
    ensures var r := After(run).db.rows[id]; r.emails <= 1 + r.unrecorded + r.overlaps
  {
    MailsAreAlwaysOk(run);
  }

  lemma {:induction false} MailsAreAlwaysOk(run: seq<Event>)
    ensures MailsOk(After(run))
  {
    hide Apply;
    if run != [] {
      hide MailsOk;
      MailsAreAlwaysOk(run[..|run| - 1]);
      EventKeepsMailsOk(After(run[..|run| - 1]), run[|run| - 1]);
    }
  }

  // ---- marking and restoring, over and over

  /** How one cycle goes: what the delivery brings, and when the operator marks again. */
  datatype Turn = Turn(outcome: Outcome, now: nat)

  /** A restore, the delivery it starts, and an operator marking the row as spam again. */
  function Cycle(w: World, id: nat, t: Turn): World {
    Apply(Apply(Apply(w, RestoreIt(id)), Land(|w.flights|, t.outcome)), MarkIt(id, [], t.now))
  }

  function Cycles(w: World, id: nat, turns: seq<Turn>): World {
    if turns == [] then w else Cycle(Cycles(w, id, turns[..|turns| - 1]), id, turns[|turns| - 1])
  }

  predicate Records(t: Turn) {
    t.outcome.emailed && t.outcome.marked
  }

  /** The turns in which anything is sent: up to and with the first whose email is recorded. */
  function Sending(turns: seq<Turn>): seq<Turn> {
    if turns == [] then []
    else if Records(turns[0]) then [turns[0]]
    else [turns[0]] + Sending(turns[1..])
  }

  function Emailed(turns: seq<Turn>): nat {
    if turns == [] then 0 else Emailed(turns[..|turns| - 1]) + if turns[|turns| - 1].outcome.emailed then 1 else 0
  }

  function Hooked(turns: seq<Turn>): nat {
    if turns == [] then 0 else Hooked(turns[..|turns| - 1]) + if turns[|turns| - 1].outcome.hooked then 1 else 0
  }

  predicate Recorded(turns: seq<Turn>) {
    exists i :: 0 <= i < |turns| && Records(turns[i])
  }

  predicate SameButHeld(a: Row, b: Row) {
    b.(held := a.held, heldAt := a.heldAt, read := a.read) == a
  }

  lemma RestoreThenLand(w: World, id: nat, o: Outcome)
    requires IsHeld(w.db, id) && InFlight(w.flights, id) == 0
    ensures var landed := LandAt(RestoreAndDeliver(w, id), |w.flights|, o);
            landed.flights == w.flights && IsAccepted(landed.db, id) &&
            SameButHeld(if w.db.rows[id].notified then w.db.rows[id] else Landed(w.db.rows[id], true, o), landed.db.rows[id])
  {
    hide InFlight;
    var restored := RestoreAndDeliver(w, id);
    if !w.db.rows[id].notified {
      assert restored.flights[..|w.flights|] + restored.flights[|w.flights| + 1..] == w.flights;
    }
  }

  /** One cycle delivers what its turn brings if the row was never told to be notified, else nothing. */
  lemma CycleSends(w: World, id: nat, t: Turn)
    requires IsHeld(w.db, id) && InFlight(w.flights, id) == 0
    ensures IsHeld(Cycle(w, id, t).db, id) && Cycle(w, id, t).flights == w.flights
    ensures SameButHeld(if w.db.rows[id].notified then w.db.rows[id] else Landed(w.db.rows[id], true, t.outcome),
                        Cycle(w, id, t).db.rows[id])
  {
    hide InFlight, RestoreAndDeliver, LandAt, Landed;
    RestoreThenLand(w, id, t.outcome);
  }

  lemma {:induction false} SendingNext(turns: seq<Turn>, t: Turn)
    ensures Sending(turns + [t]) == if Recorded(turns) then Sending(turns) else Sending(turns) + [t]
    ensures !Recorded(turns) ==> Sending(turns) == turns
  {
    if turns == [] {
      assert [] + [t] == [t] && [t][1..] == [];
    } else {
      var rest := turns[1..];
      SendingNext(rest, t);
      assert (turns + [t])[1..] == rest + [t];
      assert Recorded(turns) <==> Records(turns[0]) || Recorded(rest) by {
        if i :| 0 <= i < |rest| && Records(rest[i]) { assert Records(turns[i + 1]); }
        if i :| 0 <= i < |turns| && Records(turns[i]) { assert i > 0 ==> Records(rest[i - 1]); }
      }
      assert turns == [turns[0]] + rest;
    }
  }

  lemma SentNext(turns: seq<Turn>, t: Turn)
    ensures Emailed(turns + [t]) == Emailed(turns) + if t.outcome.emailed then 1 else 0
    ensures Hooked(turns + [t]) == Hooked(turns) + if t.outcome.hooked then 1 else 0
  {
    assert (turns + [t])[..|turns|] == turns;
  }

  lemma RecordedNext(turns: seq<Turn>, t: Turn)
    ensures Recorded(turns + [t]) <==> Recorded(turns) || Records(t)
  {
    var next := turns + [t];
    if i :| 0 <= i < |turns| && Records(turns[i]) { assert Records(next[i]); }
    if Records(t) { assert Records(next[|turns|]); }
  }

  /** Over any marks and restores, whatever each delivery brings: a row nobody was notified of is
      delivered on every cycle up to the first whose email is recorded, webhook and all, and never
      after it; one already notified is never delivered again. */
  lemma {:induction false} CyclesSend(w: World, id: nat, turns: seq<Turn>)
    requires IsHeld(w.db, id) && InFlight(w.flights, id) == 0
    ensures IsHeld(Cycles(w, id, turns).db, id) && Cycles(w, id, turns).flights == w.flights
    ensures var was, now := w.db.rows[id], Cycles(w, id, turns).db.rows[id];
            now.notified == (was.notified || Recorded(turns)) &&
            now.emails == was.emails + (if was.notified then 0 else Emailed(Sending(turns))) &&
            now.hooks == was.hooks + (if was.notified then 0 else Hooked(Sending(turns)))
  {
    hide Cycle, Sending, Emailed, Hooked, Recorded, Records;
    if turns == [] {
      NothingSent();
    } else {
      var n := |turns| - 1;
      var before := Cycles(w, id, turns[..n]);
      assert turns == turns[..n] + [turns[n]];
      CyclesSend(w, id, turns[..n]);
      CycleSends(before, id, turns[n]);
      SendingNext(turns[..n], turns[n]);
      SentNext(Sending(turns[..n]), turns[n]);
      RecordedNext(turns[..n], turns[n]);
      RecordsMeans(turns[n]);
    }
  }

  lemma NothingSent()
    ensures Sending([]) == [] && Emailed([]) == 0 && Hooked([]) == 0 && !Recorded([])
  {}

  lemma RecordsMeans(t: Turn)
    ensures Records(t) <==> t.outcome.emailed && t.outcome.marked
  {}

  /** A restore that does not wait for the delivery of the one before it sends again, even though both
      emails are recorded. */
  lemma RestoreWithoutWaitingSendsTwice(w: World, id: nat, now: nat, o: Outcome)
    requires IsHeld(w.db, id) && !w.db.rows[id].notified && InFlight(w.flights, id) == 0 && o.emailed && o.marked
    ensures var n := |w.flights|;
            var again := Apply(Apply(Apply(w, RestoreIt(id)), MarkIt(id, [], now)), RestoreIt(id));
            var end := Apply(Apply(again, Land(n, o)), Land(n, o));
            id in end.db.rows && end.db.rows[id].emails == w.db.rows[id].emails + 2 &&
            end.db.rows[id].overlaps == w.db.rows[id].overlaps + 1
  {
    hide InFlight;
    var n := |w.flights|;
    var once := Apply(Apply(w, RestoreIt(id)), MarkIt(id, [], now));
    var again := Apply(once, RestoreIt(id));
    OneMoreFlight(w.flights, Flight(id, true), id);
    assert again.flights == w.flights + [Flight(id, true), Flight(id, true)];
    var landed := Apply(again, Land(n, o));
    assert landed.flights == w.flights + [Flight(id, true)];
  }

  // ---- the bound is met

  predicate Flying(flights: seq<Flight>, id: nat, n: nat) {
    |flights| == n && forall i :: 0 <= i < n ==> flights[i] == Flight(id, true)
  }

  /** The row and its deliveries under way, after a run. */
  predicate Stands(run: seq<Event>, id: nat, inFlight: nat, emails: nat, unrecorded: nat, overlaps: nat) {
    var w := After(run);
    AllPossible(run) && id in w.db.rows && Flying(w.flights, id, inFlight) &&
    var r := w.db.rows[id];
    r.emails == emails && r.unrecorded == unrecorded && r.overlaps == overlaps
  }

  predicate StillHeld(run: seq<Event>, id: nat) {
    IsHeld(After(run).db, id) && !After(run).db.rows[id].notified
  }

  lemma OneEvent(run: seq<Event>, e: Event)
    requires AllPossible(run) && Possible(e)
    ensures After(run + [e]) == Apply(After(run), e) && AllPossible(run + [e])
  {
    assert (run + [e])[..|run|] == run;
  }

  lemma FlyingCount(flights: seq<Flight>, id: nat, n: nat)
    requires Flying(flights, id, n)
    ensures InFlight(flights, id) > 0 <==> n > 0
  {
    if n > 0 { assert flights[n - 1] == Flight(id, true); }
  }

  /** A restore and a mark: one more delivery under way, overlapping those already there. */
  lemma RestoreAndMark(run: seq<Event>, id: nat, n: nat, e: nat, u: nat, o: nat) returns (next: seq<Event>)
    requires Stands(run, id, n, e, u, o) && StillHeld(run, id)
    ensures Stands(next, id, n + 1, e, u, if n > 0 then o + 1 else o) && StillHeld(next, id)
  {
    FlyingCount(After(run).flights, id, n);
    hide InFlight, After;
    OneEvent(run, RestoreIt(id));
    next := run + [RestoreIt(id)];
    OneEvent(next, MarkIt(id, [], 1));
    next := next + [MarkIt(id, [], 1)];
  }

  /** A delivery that lands with its email sent, its mark landing or not. */
  lemma LandOne(run: seq<Event>, id: nat, n: nat, e: nat, u: nat, o: nat, marked: bool) returns (next: seq<Event>)
    requires Stands(run, id, n, e, u, o) && n > 0
    ensures Stands(next, id, n - 1, e + 1, if marked then u else u + 1, o)
    ensures !marked && StillHeld(run, id) ==> StillHeld(next, id)
  {
    hide After;
    var land := Land(0, Outcome(true, false, marked));
    OneEvent(run, land);
    next := run + [land];
  }

  lemma {:induction false} UnrecordedMails(run: seq<Event>, id: nat, e: nat, u: nat, more: nat) returns (next: seq<Event>)
    requires Stands(run, id, 0, e, u, 0) && StillHeld(run, id)
    ensures Stands(next, id, 0, e + more, u + more, 0) && StillHeld(next, id)
    decreases more
  {
    hide Stands, StillHeld;
    next := run;
    if more > 0 {
      next := RestoreAndMark(run, id, 0, e, u, 0);
      next := LandOne(next, id, 1, e, u, 0, false);
      next := UnrecordedMails(next, id, e + 1, u + 1, more - 1);
    }
  }

  lemma {:induction false} OverlappingRestores(run: seq<Event>, id: nat, e: nat, u: nat, n: nat) returns (next: seq<Event>)
    requires Stands(run, id, 0, e, u, 0) && StillHeld(run, id)
    ensures Stands(next, id, n + 1, e, u, n) && StillHeld(next, id)
  {
    hide Stands, StillHeld;
    if n == 0 {
      next := RestoreAndMark(run, id, 0, e, u, 0);
    } else {
      next := OverlappingRestores(run, id, e, u, n - 1);
      next := RestoreAndMark(next, id, n, e, u, n - 1);
    }
  }

  lemma {:induction false} LandAll(run: seq<Event>, id: nat, n: nat, e: nat, u: nat, o: nat) returns (next: seq<Event>)
    requires Stands(run, id, n, e, u, o)
    ensures Stands(next, id, 0, e + n, u, o)
    decreases n
  {
    hide Stands;
    next := run;
    if n > 0 {
      next := LandOne(run, id, n, e, u, o, true);
      next := LandAll(next, id, n - 1, e + 1, u, o);
    }
  }

  lemma HeldOnArrival(id: nat, form: string, v: Screen.Verdict)
    requires v.hold && Screen.Coherent(v)
    ensures Stands([Arrive(id, form, 1, v)], id, 0, 0, 0, 0) && StillHeld([Arrive(id, form, 1, v)], id)
  {
    OneEvent([], Arrive(id, form, 1, v));
    assert [] + [Arrive(id, form, 1, v)] == [Arrive(id, form, 1, v)];
  }

  /** For any numbers of unrecorded emails and of restores that did not wait, a held submission can
      come to just as many emails and one more. */
  lemma MailBoundIsReached(id: nat, form: string, v: Screen.Verdict, unrecorded: nat, overlaps: nat) returns (run: seq<Event>)
    requires v.hold && Screen.Coherent(v)
    ensures AllPossible(run) && id in After(run).db.rows
    ensures var r := After(run).db.rows[id];
            r.unrecorded == unrecorded && r.overlaps == overlaps && r.emails == 1 + unrecorded + overlaps
  {
    HeldOnArrival(id, form, v);
    hide StillHeld;
    run := UnrecordedMails([Arrive(id, form, 1, v)], id, 0, 0, unrecorded);
    run := OverlappingRestores(run, id, unrecorded, unrecorded, overlaps);
    run := LandAll(run, id, overlaps + 1, unrecorded, unrecorded, overlaps);
  }

  /** Marking holds a row from now on, unread; restoring undoes it, but for the read flag and the
      signal that stays as evidence. */
  lemma RestoreUndoesMark(db: Db, id: nat, actor: bytes, now: nat)
    requires RowsOk(db) && IsAccepted(db, id) && now > 0
    ensures IsHeld(Mark(db, id, actor, now), id) && Since(Mark(db, id, actor, now).rows[id]) == now
    ensures !Mark(db, id, actor, now).rows[id].read
    ensures Restore(Mark(db, id, actor, now), id).rows == db.rows[id := db.rows[id].(read := false)]
    ensures SignalsOf(Restore(Mark(db, id, actor, now), id), id) == SignalsOf(db, id) + [ManualSignal(actor)]
  {
    assert RowOk(db.rows[id], SignalsOf(db, id));
  }

  // ---- how long a row has been held

  function When(e: Event): nat {
    match e
    case Arrive(_, _, now, _) => now
    case MarkIt(_, _, now) => now
    case _ => 0
  }

  /** The row went into quarantine at event j and was in it after every event since. */
  predicate Entered(run: seq<Event>, id: nat, j: nat) {
    j < |run| && !IsHeld(After(run[..j]).db, id) && forall k :: j < k <= |run| ==> IsHeld(After(run[..k]).db, id)
  }

  lemma HoldTimeOfEvent(w: World, e: Event, id: nat)
    requires w.db.rows.Keys <= w.used && Possible(e) && IsHeld(Apply(w, e).db, id)
    ensures var since := Since(Apply(w, e).db.rows[id]);
            since == if IsHeld(w.db, id) then Since(w.db.rows[id]) else When(e)
  {
    hide InFlight;
  }

  lemma {:induction false} EnteredWhenHeld(run: seq<Event>, id: nat) returns (j: nat)
    requires AllPossible(run) && IsHeld(After(run).db, id)
    ensures Entered(run, id, j) && When(run[j]) == Since(After(run).db.rows[id])
  {
    assert run != [];
    hide Apply, Possible, IsHeld;
    var n := |run| - 1;
    var w := After(run[..n]);
    RowsAreAlwaysOk(run[..n]);
    HoldTimeOfEvent(w, run[n], id);
    assert run[..|run|] == run;
    if IsHeld(w.db, id) {
      j := EnteredWhenHeld(run[..n], id);
      assert run[..n][..j] == run[..j];
      forall k | j < k <= |run| ensures IsHeld(After(run[..k]).db, id) {
        if k < |run| { assert run[..n][..k] == run[..k]; }
      }
    } else {
      j := n;
    }
  }

  /** The retention sweep takes exactly the rows that have been in quarantine, without a break, since
      before the cutoff: one restored and marked again starts afresh. A zero cutoff takes all. */
  lemma PurgedExactlyWhen(run: seq<Event>, cutoff: nat, id: nat)
    requires AllPossible(run) && id in After(run).db.rows
    ensures id !in Apply(After(run), Clear(HeldFilter(ALL_FORMS, cutoff))).db.rows <==>
            IsHeld(After(run).db, id) &&
            (cutoff == 0 || exists j: nat :: Entered(run, id, j) && When(run[j]) < cutoff)
  {
    hide When, After;
    assert run[..|run|] == run;
    if IsHeld(After(run).db, id) {
      var j := EnteredWhenHeld(run, id);
      assert forall k :: Entered(run, id, k) ==> k == j;
    }
  }

  // ---- the evidence

  lemma SignalsOfEvent(w: World, e: Event, id: nat)
    requires RowsOk(w.db) && w.db.rows.Keys <= w.used && Possible(e) && id in Apply(w, e).db.rows
    ensures SignalsOf(Apply(w, e).db, id) != [] <==>
            (id in w.db.rows && SignalsOf(w.db, id) != []) || IsHeld(Apply(w, e).db, id)
    ensures id !in w.db.rows ==> id !in w.used
  {
    hide InFlight, Sum, AllPositive;
    match e
    case Arrive(_, _, _, verdict) => assert [] + verdict.signals == verdict.signals;
    case _ =>
  }

  lemma {:induction false} UnusedWasNeverHeld(run: seq<Event>, id: nat)
    requires AllPossible(run) && id !in After(run).used
    ensures forall k :: 0 <= k <= |run| ==> !IsHeld(After(run[..k]).db, id)
  {
    hide RowsOk;
    RowsAreAlwaysOk(run);
    assert run[..|run|] == run;
    if run != [] {
      var n := |run| - 1;
      UsedStaysUsed(After(run[..n]), run[n]);
      UnusedWasNeverHeld(run[..n], id);
      forall k | 0 <= k < |run| ensures !IsHeld(After(run[..k]).db, id) {
        assert run[..n][..k] == run[..k];
      }
    }
  }

  lemma UsedStaysUsed(w: World, e: Event)
    ensures w.used <= Apply(w, e).used
  {}

  /** A row has signals exactly if it was ever held: that is how the reader tells what was restored
      from what simply passed. */
  lemma {:induction false} SignalsExactlyWhenEverHeld(run: seq<Event>, id: nat)
    requires AllPossible(run) && id in After(run).db.rows
    ensures SignalsOf(After(run).db, id) != [] <==> exists k :: 0 <= k <= |run| && IsHeld(After(run[..k]).db, id)
  {
    hide Apply, RowsOk, Possible, IsHeld, SignalsOf;
    if run != [] {
      var n := |run| - 1;
      var w := After(run[..n]);
      RowsAreAlwaysOk(run[..n]);
      SignalsOfEvent(w, run[n], id);
      assert run[..|run|] == run;
      assert forall k :: 0 <= k <= n ==> run[..n][..k] == run[..k];
      if id in w.db.rows {
        SignalsExactlyWhenEverHeld(run[..n], id);
      } else {
        UnusedWasNeverHeld(run[..n], id);
      }
    }
  }
}
