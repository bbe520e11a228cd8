/** What becomes of each delivery, and that the summary's numbers are what really happened. */
module BroadcastOutcome {
  import opened Broadcast

  // ---- the batch

  function PendingBetween(rows: seq<Row>, i: nat, j: nat): nat
    requires i <= j <= |rows|
    decreases j - i
  {
    if i == j then 0 else PendingBetween(rows, i + 1, j) + if rows[i].status == Pending then 1 else 0
  }

  lemma {:induction false} BatchFrom(rows: seq<Row>, i: nat, limit: nat, j: nat)
    requires i <= j < |rows|
    ensures j in NextPending(rows, i, limit) <==> rows[j].status == Pending && PendingBetween(rows, i, j) < limit
    decreases |rows| - i
  {
    if limit > 0 && i < j {
      BatchFrom(rows, i + 1, if rows[i].status == Pending then limit - 1 else limit, j);
    } else if limit > 0 && rows[i].status == Pending {
      assert NextPending(rows, i, limit)[0] == j;
    }
  }

  /** A pass works on a row exactly when it is pending and fewer than limit pending rows come before
      it. */
  lemma BatchIsTheFirstPending(rows: seq<Row>, limit: nat, j: nat)
    requires j < |rows|
    ensures j in NextPending(rows, 0, limit) <==> rows[j].status == Pending && PendingBetween(rows, 0, j) < limit
  {
    BatchFrom(rows, 0, limit, j);
  }

  // ---- one delivery

  /** The mail went, and the mark that says so landed. */
  predicate SentAndMarked(f: Fate) {
    f.found && f.mailer && f.delivered && f.sentLands
  }

  lemma {:induction false} ProcessedAt(rows: seq<Row>, ids: seq<nat>, fates: seq<Fate>, max: nat, k: nat)
    requires forall j :: 0 <= j < |ids| ==> ids[j] < |rows|
    requires forall i, j :: 0 <= i < j < |ids| ==> ids[i] < ids[j]
    requires k < |ids|
    ensures ProcessAll(rows, ids, fates, max)[ids[k]] ==
            if k < |fates| then Process(rows[ids[k]], fates[k], max) else rows[ids[k]]
    decreases |ids|
  {
    if fates != [] {
      var next := rows[ids[0] := Process(rows[ids[0]], fates[0], max)];
      if k > 0 {
        ProcessedAt(next, ids[1..], fates[1..], max, k - 1);
      } else {
        PassRow(next, ids[1..], fates[1..], max, ids[0]);
        assert ids[0] !in ids[1..];
      }
    }
  }

  /** After a pass, a row of the batch is sent, with its attempts as they were, exactly when its mail
      was delivered and that mark landed; it is failed exactly when not so and the failure mark landed
      as its max-th attempt; each failure mark that lands is one attempt. Every other row is as it
      was. */
  lemma PassOutcome(rows: seq<Row>, limit: nat, fates: seq<Fate>, max: nat, k: nat)
    requires k < |NextPending(rows, 0, limit)|
    ensures var i := NextPending(rows, 0, limit)[k];
            var was, now := rows[i], Pass(rows, limit, fates, max)[i];
            if k >= |fates| then now == was
            else
              (now.status == Sent <==> SentAndMarked(fates[k])) &&
              (now.status == Failed <==> !SentAndMarked(fates[k]) && fates[k].failedLands && was.attempts + 1 >= max) &&
              now.attempts == was.attempts + (if !SentAndMarked(fates[k]) && fates[k].failedLands then 1 else 0) &&
              now.sends == was.sends + (if fates[k].found && fates[k].mailer then 1 else 0) &&
              now.broadcast == was.broadcast
  {
    ProcessedAt(rows, NextPending(rows, 0, limit), fates, max, k);
  }

  lemma OthersAreUntouched(rows: seq<Row>, limit: nat, fates: seq<Fate>, max: nat, i: nat)
    requires i < |rows| && i !in NextPending(rows, 0, limit)
    ensures Pass(rows, limit, fates, max)[i] == rows[i]
  {
    PassRow(rows, NextPending(rows, 0, limit), fates, max, i);
  }

  // ---- the numbers

  /** Of a batch, the deliveries for broadcast b whose sent mark landed, and those whose failure mark
      landed as the last attempt. */
  function MarkedSent(rows: seq<Row>, ids: seq<nat>, fates: seq<Fate>, b: nat): nat
    requires forall j :: 0 <= j < |ids| ==> ids[j] < |rows|
    decreases |ids|
  {
    if ids == [] || fates == [] then 0
    else MarkedSent(rows, ids[1..], fates[1..], b) + if rows[ids[0]].broadcast == b && SentAndMarked(fates[0]) then 1 else 0
  }

  function MarkedFailed(rows: seq<Row>, ids: seq<nat>, fates: seq<Fate>, max: nat, b: nat): nat
    requires forall j :: 0 <= j < |ids| ==> ids[j] < |rows|
    decreases |ids|
  {
    if ids == [] || fates == [] then 0
    else
      MarkedFailed(rows, ids[1..], fates[1..], max, b) +
      if rows[ids[0]].broadcast == b && !SentAndMarked(fates[0]) && fates[0].failedLands && rows[ids[0]].attempts + 1 >= max then 1 else 0
  }

  function One(r: Row, b: nat, status: Status): nat {
    if r.broadcast == b && r.status == status then 1 else 0
  }

  lemma {:induction false} CountOfUpdate(rows: seq<Row>, i: nat, r: Row, b: nat, status: Status)
    requires i < |rows|
    ensures Count(rows[i := r], b, status) + One(rows[i], b, status) == Count(rows, b, status) + One(r, b, status)
  {
    var n := |rows| - 1;
    if i < n {
      CountOfUpdate(rows[..n], i, r, b, status);
      assert rows[i := r][..n] == rows[..n][i := r];
    } else {
      assert rows[i := r][..n] == rows[..n];
    }
  }

  lemma {:induction false} SameMarks(rows: seq<Row>, other: seq<Row>, ids: seq<nat>, fates: seq<Fate>, max: nat, b: nat)
    requires |rows| == |other| && forall j :: 0 <= j < |ids| ==> ids[j] < |rows| && rows[ids[j]] == other[ids[j]]
    ensures MarkedSent(rows, ids, fates, b) == MarkedSent(other, ids, fates, b)
    ensures MarkedFailed(rows, ids, fates, max, b) == MarkedFailed(other, ids, fates, max, b)
    decreases |ids|
  {
    if ids != [] && fates != [] {
      SameMarks(rows, other, ids[1..], fates[1..], max, b);
    }
  }

  lemma {:induction false} BatchCounts(rows: seq<Row>, ids: seq<nat>, fates: seq<Fate>, max: nat, b: nat)
    requires forall j :: 0 <= j < |ids| ==> ids[j] < |rows| && rows[ids[j]].status == Pending
    requires forall i, j :: 0 <= i < j < |ids| ==> ids[i] < ids[j]
    ensures Count(ProcessAll(rows, ids, fates, max), b, Sent) == Count(rows, b, Sent) + MarkedSent(rows, ids, fates, b)
    ensures Count(ProcessAll(rows, ids, fates, max), b, Failed) == Count(rows, b, Failed) + MarkedFailed(rows, ids, fates, max, b)
    decreases |ids|
  {
    hide Count;
    if ids != [] && fates != [] {
      var i := ids[0];
      var r := Process(rows[i], fates[0], max);
      var next := rows[i := r];
      CountOfUpdate(rows, i, r, b, Sent);
      CountOfUpdate(rows, i, r, b, Failed);
      BatchCounts(next, ids[1..], fates[1..], max, b);
      SameMarks(rows, next, ids[1..], fates[1..], max, b);
    }
  }

  /** Over a run, by the marks that landed. */
  function SentMarks(q: Queue, events: seq<Event>, max: nat, b: nat): nat {
    if events == [] then 0
    else
      var n := |events| - 1;
      var before := After(q, events[..n], max);
      SentMarks(q, events[..n], max, b) +
      match events[n]
      case Work(limit, fates) => MarkedSent(before.rows, NextPending(before.rows, 0, limit), fates, b)
      case _ => 0
  }

  function FailedMarks(q: Queue, events: seq<Event>, max: nat, b: nat): nat {
    if events == [] then 0
    else
      var n := |events| - 1;
      var before := After(q, events[..n], max);
      FailedMarks(q, events[..n], max, b) +
      match events[n]
      case Work(limit, fates) => MarkedFailed(before.rows, NextPending(before.rows, 0, limit), fates, max, b)
      case _ => 0
  }

  /** The recipients of a broadcast: those of the first creation of it. */
  function Recipients(q: Queue, events: seq<Event>, max: nat, b: nat): nat {
    if events == [] then 0
    else
      var n := |events| - 1;
      Recipients(q, events[..n], max, b) +
      match events[n]
      case NewBroadcast(id, emails) => if id == b && b !in After(q, events[..n], max).progress then emails else 0
      case _ => 0
  }

  lemma {:induction false} NewRowsCount(rows: seq<Row>, b: nat, id: nat, emails: nat)
    ensures var all := rows + seq(emails, _ => Row(id, Pending, 0, 0, 0));
            Total(all, b) == Total(rows, b) + (if id == b then emails else 0) &&
            Count(all, b, Sent) == Count(rows, b, Sent) && Count(all, b, Failed) == Count(rows, b, Failed)
    decreases emails
  {
    var all := rows + seq(emails, _ => Row(id, Pending, 0, 0, 0));
    if emails == 0 {
      assert all == rows;
    } else {
      NewRowsCount(rows, b, id, emails - 1);
      assert all[..|all| - 1] == rows + seq(emails - 1, _ => Row(id, Pending, 0, 0, 0));
    }
  }

  lemma {:induction false} SameTotals(rows: seq<Row>, other: seq<Row>, b: nat)
    requires |rows| == |other| && forall i :: 0 <= i < |rows| ==> rows[i].broadcast == other[i].broadcast
    ensures Total(rows, b) == Total(other, b)
  {
    if rows != [] {
      SameTotals(rows[..|rows| - 1], other[..|other| - 1], b);
    }
  }

  /** Over any run of passes, closings and new broadcasts from an empty queue, the summary says exactly
      what happened: as many sent as sent marks landed, as many failed as failure marks landed as a
      last attempt, in all as many as the broadcast was created with. */
  lemma {:induction false} SummaryIsWhatHappened(events: seq<Event>, max: nat, b: nat)
    ensures var rows := After(EMPTY, events, max).rows;
            Count(rows, b, Sent) == SentMarks(EMPTY, events, max, b) &&
            Count(rows, b, Failed) == FailedMarks(EMPTY, events, max, b) &&
            Total(rows, b) == Recipients(EMPTY, events, max, b)
  {
    if events != [] {
      var n := |events| - 1;
      var before := After(EMPTY, events[..n], max);
      SummaryIsWhatHappened(events[..n], max, b);
      match events[n]
      case Work(limit, fates) =>
        BatchCounts(before.rows, NextPending(before.rows, 0, limit), fates, max, b);
        forall i | 0 <= i < |before.rows| ensures Pass(before.rows, limit, fates, max)[i].broadcast == before.rows[i].broadcast {
          SettledRowsAreNeverTouched(before.rows, limit, fates, max, i);
        }
        SameTotals(before.rows, Pass(before.rows, limit, fates, max), b);
      case Finish(_) =>
      case NewBroadcast(id, emails) => NewRowsCount(before.rows, b, id, emails);
    }
  }

  // ---- closing

  /** A broadcast is done after a closing exactly when it was, or its count and its mark succeeded and
      none of its deliveries is pending. */
  lemma ClosedExactlyWhen(q: Queue, succeed: set<nat>, b: nat)
    requires b in q.progress
    ensures b in Finalize(q, succeed).progress
    ensures Finalize(q, succeed).progress[b] == Done <==>
            q.progress[b] == Done ||
            (b in succeed && forall i :: 0 <= i < |q.rows| && q.rows[i].broadcast == b ==> q.rows[i].status != Pending)
    ensures Finalize(q, succeed).rows == q.rows
  {}
}
