/** The broadcast queue: deliveries retried up to a limit, and broadcasts closed when nothing is
    pending. */
module Broadcast {

  datatype Status = Pending | Sent | Failed

  /** One deliveries row; its rowid is its index. sends counts the mailer calls made for it, and
      unmarked those of them after which neither mark landed; no column records either. */
  datatype Row = Row(broadcast: nat, status: Status, attempts: nat, sends: nat, unmarked: nat)

  datatype Progress = Sending | Done

  datatype Queue = Queue(rows: seq<Row>, progress: map<nat, Progress>)

  /** What happens to one delivery in a pass: whether its broadcast could be read, whether there is a
      mailer, what the guarded send answers, and which of the two mark writes would land. */
  datatype Fate = Fate(found: bool, mailer: bool, delivered: bool, sentLands: bool, failedLands: bool)

  // ---- the store

  function MarkSent(r: Row): Row {
    r.(status := Sent)
  }

  function MarkFailed(r: Row, max: nat): Row {
    r.(attempts := r.attempts + 1, status := if r.attempts + 1 >= max then Failed else Pending)
  }

  /** NextPendingDeliveries: the first limit pending rows in rowid order, from index i. */
  function NextPending(rows: seq<Row>, i: nat, limit: nat): (ids: seq<nat>)
    requires i <= |rows|
    ensures |ids| <= limit
    ensures forall k :: 0 <= k < |ids| ==> i <= ids[k] < |rows| && rows[ids[k]].status == Pending
    ensures forall j, k :: 0 <= j < k < |ids| ==> ids[j] < ids[k]
    decreases |rows| - i
  {
    if i == |rows| || limit == 0 then []
    else if rows[i].status == Pending then [i] + NextPending(rows, i + 1, limit - 1)
    else NextPending(rows, i + 1, limit)
  }

  predicate HasPending(rows: seq<Row>, b: nat) {
    exists i :: 0 <= i < |rows| && rows[i].broadcast == b && rows[i].status == Pending
  }

  // ---- one delivery

  predicate Mailed(f: Fate) {
    f.found && f.mailer
  }

  /** At least one of the marks attempted for this delivery lands. */
  predicate Lands(f: Fate) {
    f.failedLands || (Mailed(f) && f.delivered && f.sentLands)
  }

  function Process(r: Row, f: Fate, max: nat): Row {
    var tried := if Mailed(f) then r.(sends := r.sends + 1) else r;
    if Mailed(f) && f.delivered && f.sentLands then MarkSent(tried)
    else if f.failedLands then MarkFailed(tried, max)
    else if Mailed(f) then tried.(unmarked := r.unmarked + 1)
    else tried
  }

  // ---- a pass

  /** The first rows of the batch, as far as the fates go: a pass that dies part way has shorter
      fates. */
  function ProcessAll(rows: seq<Row>, ids: seq<nat>, fates: seq<Fate>, max: nat): (out: seq<Row>)
    requires forall k :: 0 <= k < |ids| ==> ids[k] < |rows|
    ensures |out| == |rows|
    decreases |ids|
  {
    if ids == [] || fates == [] then rows
    else ProcessAll(rows[ids[0] := Process(rows[ids[0]], fates[0], max)], ids[1..], fates[1..], max)
  }

  function Pass(rows: seq<Row>, limit: nat, fates: seq<Fate>, max: nat): seq<Row> {
    ProcessAll(rows, NextPending(rows, 0, limit), fates, max)
  }

  /** finalize: every sending broadcast with nothing pending is closed, as far as reads and writes
      succeed. */
  function Finalize(q: Queue, succeed: set<nat>): Queue {
    q.(progress := map b | b in q.progress ::
         if q.progress[b] == Sending && b in succeed && !HasPending(q.rows, b) then Done else q.progress[b])
  }

  /** CreateBroadcast: one transaction; a taken id is refused by the primary key. */
  function Create(q: Queue, b: nat, emails: nat): Queue {
    if b in q.progress then q
    else q.(rows := q.rows + seq(emails, _ => Row(b, Pending, 0, 0, 0)), progress := q.progress[b := Sending])
  }

  datatype Event =
    | Work(limit: nat, fates: seq<Fate>)
    | Finish(succeed: set<nat>)
    | NewBroadcast(id: nat, emails: nat)

  function Apply(q: Queue, e: Event, max: nat): Queue {
    match e
    case Work(limit, fates) => q.(rows := Pass(q.rows, limit, fates, max))
    case Finish(succeed) => Finalize(q, succeed)
    case NewBroadcast(id, emails) => Create(q, id, emails)
  }

  function After(q: Queue, events: seq<Event>, max: nat): Queue {
    if events == [] then q else Apply(After(q, events[..|events| - 1], max), events[|events| - 1], max)
  }

  // ---- at most max mails, and one for each that is not marked

  /** What one row keeps: every send is an attempt counted, the one that was marked sent, or unmarked. */
  predicate RowOk(r: Row, max: nat) {
    r.sends <= r.attempts + (if r.status == Sent then 1 else 0) + r.unmarked && r.attempts <= max &&
    (r.status != Failed ==> r.attempts < max)
  }

  predicate RowsOk(rows: seq<Row>, max: nat) {
    forall i :: 0 <= i < |rows| ==> RowOk(rows[i], max)
  }

  predicate AllLand(fates: seq<Fate>) {
    forall k :: 0 <= k < |fates| ==> Lands(fates[k])
  }

  predicate Marked(events: seq<Event>) {
    forall k :: 0 <= k < |events| && events[k].Work? ==> AllLand(events[k].fates)
  }

  lemma {:induction false} ProcessAllKeepsRowsOk(rows: seq<Row>, ids: seq<nat>, fates: seq<Fate>, max: nat)
    requires max >= 1 && RowsOk(rows, max)
    requires forall k :: 0 <= k < |ids| ==> ids[k] < |rows| && rows[ids[k]].status == Pending
    requires forall j, k :: 0 <= j < k < |ids| ==> ids[j] != ids[k]
    ensures RowsOk(ProcessAll(rows, ids, fates, max), max)
    ensures AllLand(fates) ==> forall i :: 0 <= i < |rows| ==> ProcessAll(rows, ids, fates, max)[i].unmarked == rows[i].unmarked
    decreases |ids|
  {
    if ids != [] && fates != [] {
      var r := Process(rows[ids[0]], fates[0], max);
      assert RowOk(rows[ids[0]], max);
      assert RowOk(r, max);
      assert forall k :: 0 <= k < |fates| - 1 ==> fates[1..][k] == fates[k + 1];
      ProcessAllKeepsRowsOk(rows[ids[0] := r], ids[1..], fates[1..], max);
    }
  }

  /** Over any number of passes, retries, dying passes and new broadcasts, whatever is read, sent,
      refused or marked: nobody is mailed one broadcast more than max times, and once more for each
      send after which neither mark landed. */
  lemma {:induction false} SendsAreBounded(q: Queue, events: seq<Event>, max: nat)
    requires max >= 1 && RowsOk(q.rows, max)
    ensures RowsOk(After(q, events, max).rows, max)
    ensures forall i :: 0 <= i < |After(q, events, max).rows| ==>
              After(q, events, max).rows[i].sends <= max + After(q, events, max).rows[i].unmarked
  {
    if events != [] {
      var n := |events| - 1;
      var before := After(q, events[..n], max);
      SendsAreBounded(q, events[..n], max);
      match events[n]
      case Work(limit, fates) =>
        ProcessAllKeepsRowsOk(before.rows, NextPending(before.rows, 0, limit), fates, max);
      case Finish(_) =>
      case NewBroadcast(_, _) =>
    }
    assert forall i :: 0 <= i < |After(q, events, max).rows| ==> RowOk(After(q, events, max).rows[i], max);
  }

  predicate NoneUnmarked(rows: seq<Row>) {
    forall i :: 0 <= i < |rows| ==> rows[i].unmarked == 0
  }

  lemma {:induction false} MarkedLeavesNoneUnmarked(q: Queue, events: seq<Event>, max: nat)
    requires max >= 1 && RowsOk(q.rows, max) && NoneUnmarked(q.rows) && Marked(events)
    ensures NoneUnmarked(After(q, events, max).rows)
  {
    if events != [] {
      var n := |events| - 1;
      var before := After(q, events[..n], max);
      MarkedLeavesNoneUnmarked(q, events[..n], max);
      SendsAreBounded(q, events[..n], max);
      match events[n]
      case Work(limit, fates) =>
        ProcessAllKeepsRowsOk(before.rows, NextPending(before.rows, 0, limit), fates, max);
      case Finish(_) =>
      case NewBroadcast(_, _) =>
    }
  }

  /** So as long as one mark lands per attempt, nobody is mailed one broadcast more than max times. */
  lemma NoOneIsMailedMoreThanMax(q: Queue, events: seq<Event>, max: nat)
    requires max >= 1 && RowsOk(q.rows, max) && NoneUnmarked(q.rows) && Marked(events)
    ensures forall i :: 0 <= i < |After(q, events, max).rows| ==> After(q, events, max).rows[i].sends <= max
  {
    SendsAreBounded(q, events, max);
    MarkedLeavesNoneUnmarked(q, events, max);
  }

  const EMPTY := Queue([], map[])

  /** One address, mailed in each of n passes with neither mark landing, then refused and marked so. */
  function Unmarked(n: nat): seq<Event> {
    if n == 0 then [NewBroadcast(0, 1)] else Unmarked(n - 1) + [Work(1, [Fate(true, true, true, false, false)])]
  }

  function Refused(n: nat, m: nat): seq<Event> {
    if m == 0 then Unmarked(n) else Refused(n, m - 1) + [Work(1, [Fate(true, true, false, false, true)])]
  }

  lemma OneMoreEvent(q: Queue, events: seq<Event>, e: Event, max: nat)
    ensures After(q, events + [e], max) == Apply(After(q, events, max), e, max)
  {
    assert (events + [e])[..|events|] == events;
  }

  lemma PassOfOne(r: Row, f: Fate, max: nat)
    requires r.status == Pending
    ensures Pass([r], 1, [f], max) == [Process(r, f, max)]
  {
    var next := [r][0 := Process(r, f, max)];
    assert NextPending([r], 0, 1) == [0] + NextPending([r], 1, 0) == [0];
    assert [f][1..] == [];
    assert ProcessAll([r], [0], [f], max) == ProcessAll(next, [0][1..], [], max) == next;
  }

  lemma {:induction false} UnmarkedRun(n: nat, max: nat)
    requires max >= 1
    ensures After(EMPTY, Unmarked(n), max).rows == [Row(0, Pending, 0, n, n)]
  {
    if n == 0 {
      OneMoreEvent(EMPTY, [], NewBroadcast(0, 1), max);
      assert [] + [NewBroadcast(0, 1)] == [NewBroadcast(0, 1)];
    } else {
      UnmarkedRun(n - 1, max);
      OneMoreEvent(EMPTY, Unmarked(n - 1), Work(1, [Fate(true, true, true, false, false)]), max);
      PassOfOne(Row(0, Pending, 0, n - 1, n - 1), Fate(true, true, true, false, false), max);
    }
  }

  /** The bound is reached: however many sends go unmarked, there is a run of passes with that many
      and max more. */
  lemma {:induction false} BoundIsReached(n: nat, m: nat, max: nat)
    requires 1 <= max && m <= max
    ensures After(EMPTY, Refused(n, m), max).rows == [Row(0, if m == max then Failed else Pending, m, n + m, n)]
  {
    if m == 0 {
      UnmarkedRun(n, max);
    } else {
      BoundIsReached(n, m - 1, max);
      OneMoreEvent(EMPTY, Refused(n, m - 1), Work(1, [Fate(true, true, false, false, true)]), max);
      PassOfOne(Row(0, Pending, m - 1, n + m - 1, n), Fate(true, true, false, false, true), max);
    }
  }

  // ---- what a pass does to each row

  lemma {:induction false} PassRow(rows: seq<Row>, ids: seq<nat>, fates: seq<Fate>, max: nat, i: nat)
    requires forall k :: 0 <= k < |ids| ==> ids[k] < |rows|
    requires forall j, k :: 0 <= j < k < |ids| ==> ids[j] < ids[k]
    requires i < |rows|
    ensures ProcessAll(rows, ids, fates, max)[i] == rows[i] ||
            exists k :: 0 <= k < |ids| && k < |fates| && ids[k] == i &&
                        ProcessAll(rows, ids, fates, max)[i] == Process(rows[i], fates[k], max)
    ensures i !in ids ==> ProcessAll(rows, ids, fates, max)[i] == rows[i]
    decreases |ids|
  {
    if ids != [] && fates != [] {
      var next := rows[ids[0] := Process(rows[ids[0]], fates[0], max)];
      PassRow(next, ids[1..], fates[1..], max, i);
      var out := ProcessAll(rows, ids, fates, max);
      if i == ids[0] {
        assert i !in ids[1..];
        assert out[i] == Process(rows[i], fates[0], max);
      } else if out[i] != rows[i] {
        var k :| 0 <= k < |ids| - 1 && k < |fates| - 1 && ids[1..][k] == i && out[i] == Process(rows[i], fates[1..][k], max);
        assert ids[k + 1] == i && out[i] == Process(rows[i], fates[k + 1], max);
      }
    }
  }

  /** A pass works on pending rows only: a row already sent or failed is never mailed or changed
      again, no row changes its broadcast, and none goes back to pending. */
  lemma SettledRowsAreNeverTouched(rows: seq<Row>, limit: nat, fates: seq<Fate>, max: nat, i: nat)
    requires i < |rows|
    ensures rows[i].status != Pending ==> Pass(rows, limit, fates, max)[i] == rows[i]
    ensures Pass(rows, limit, fates, max)[i].broadcast == rows[i].broadcast
    ensures Pass(rows, limit, fates, max)[i].status == Pending ==> rows[i].status == Pending
  {
    PassRow(rows, NextPending(rows, 0, limit), fates, max, i);
  }

  // ---- the queue drains

  /** Attempts left over all pending rows. */
  function Rank(rows: seq<Row>, max: nat): nat {
    if rows == [] then 0
    else Rank(rows[..|rows| - 1], max) + Left(rows[|rows| - 1], max)
  }

  function Left(r: Row, max: nat): nat {
    if r.status == Pending && r.attempts < max then max - r.attempts else 0
  }

  lemma {:induction false} RankOfUpdate(rows: seq<Row>, i: nat, r: Row, max: nat)
    requires i < |rows|
    ensures Rank(rows[i := r], max) + Left(rows[i], max) == Rank(rows, max) + Left(r, max)
  {
    var n := |rows| - 1;
    if i < n {
      RankOfUpdate(rows[..n], i, r, max);
      assert rows[i := r][..n] == rows[..n][i := r];
    } else {
      assert rows[i := r][..n] == rows[..n];
    }
  }

  lemma {:induction false} ProcessAllLowersRank(rows: seq<Row>, ids: seq<nat>, fates: seq<Fate>, max: nat)
    requires max >= 1 && RowsOk(rows, max) && AllLand(fates) && |ids| <= |fates|
    requires forall k :: 0 <= k < |ids| ==> ids[k] < |rows| && rows[ids[k]].status == Pending
    requires forall j, k :: 0 <= j < k < |ids| ==> ids[j] < ids[k]
    ensures Rank(ProcessAll(rows, ids, fates, max), max) + |ids| <= Rank(rows, max)
    decreases |ids|
  {
    if ids != [] {
      var i := ids[0];
      var r := Process(rows[i], fates[0], max);
      assert RowOk(rows[i], max) && Lands(fates[0]);
      assert Left(r, max) + 1 <= Left(rows[i], max);
      RankOfUpdate(rows, i, r, max);
      assert forall k :: 0 <= k < |fates| - 1 ==> fates[1..][k] == fates[k + 1];
      ProcessAllLowersRank(rows[i := r], ids[1..], fates[1..], max);
    }
  }

  lemma {:induction false} NextPendingFindsOne(rows: seq<Row>, i: nat, limit: nat)
    requires i <= |rows| && limit > 0
    ensures NextPending(rows, i, limit) == [] <==> forall k :: i <= k < |rows| ==> rows[k].status != Pending
    decreases |rows| - i
  {
    if i < |rows| {
      NextPendingFindsOne(rows, i + 1, limit);
    }
  }

  predicate Drained(rows: seq<Row>) {
    forall k :: 0 <= k < |rows| ==> rows[k].status != Pending
  }

  /** Every pass that finds work lowers the rank, by at least one for each delivery it works on. */
  lemma PassLowersRank(rows: seq<Row>, limit: nat, fates: seq<Fate>, max: nat)
    requires max >= 1 && limit > 0 && RowsOk(rows, max) && AllLand(fates) && |fates| >= limit
    ensures Rank(Pass(rows, limit, fates, max), max) + |NextPending(rows, 0, limit)| <= Rank(rows, max)
    ensures NextPending(rows, 0, limit) == [] <==> Drained(rows)
  {
    NextPendingFindsOne(rows, 0, limit);
    ProcessAllLowersRank(rows, NextPending(rows, 0, limit), fates, max);
  }

  function Passes(rows: seq<Row>, limit: nat, fates: seq<seq<Fate>>, max: nat): seq<Row>
    decreases |fates|
  {
    if fates == [] then rows else Passes(Pass(rows, limit, fates[0], max), limit, fates[1..], max)
  }

  /** So the queue drains: after as many passes as there are attempts left, nothing is pending,
      whatever is sent, refused or panics on the way. */
  lemma {:induction false} QueueDrains(rows: seq<Row>, limit: nat, fates: seq<seq<Fate>>, max: nat)
    requires max >= 1 && limit > 0 && RowsOk(rows, max)
    requires forall k :: 0 <= k < |fates| ==> AllLand(fates[k]) && |fates[k]| >= limit
    requires |fates| >= Rank(rows, max)
    ensures Drained(Passes(rows, limit, fates, max))
    decreases |fates|
  {
    if fates == [] {
      RankZeroIsDrained(rows, max);
    } else {
      PassLowersRank(rows, limit, fates[0], max);
      ProcessAllKeepsRowsOk(rows, NextPending(rows, 0, limit), fates[0], max);
      assert forall k :: 0 <= k < |fates| - 1 ==> fates[1..][k] == fates[k + 1];
      var next := Pass(rows, limit, fates[0], max);
      if Drained(rows) {
        assert next == rows;
        DrainedRankIsZero(rows, max);
      }
      QueueDrains(next, limit, fates[1..], max);
    }
  }

  lemma {:induction false} RankZeroIsDrained(rows: seq<Row>, max: nat)
    requires RowsOk(rows, max) && Rank(rows, max) == 0
    ensures Drained(rows)
  {
    if rows != [] {
      var n := |rows| - 1;
      RankZeroIsDrained(rows[..n], max);
      assert forall k :: 0 <= k < n ==> rows[..n][k] == rows[k];
      assert RowOk(rows[n], max);
    }
  }

  lemma {:induction false} DrainedRankIsZero(rows: seq<Row>, max: nat)
    requires Drained(rows)
    ensures Rank(rows, max) == 0
  {
    if rows != [] {
      DrainedRankIsZero(rows[..|rows| - 1], max);
    }
  }

  // ---- done is done

  /** A closed broadcast has nothing pending, and every delivery belongs to a broadcast. */
  predicate Closed(q: Queue) {
    forall i :: 0 <= i < |q.rows| ==>
      q.rows[i].broadcast in q.progress &&
      (q.rows[i].status == Pending ==> q.progress[q.rows[i].broadcast] == Sending)
  }

  function Count(rows: seq<Row>, b: nat, status: Status): nat {
    if rows == [] then 0
    else Count(rows[..|rows| - 1], b, status) +
         if rows[|rows| - 1].broadcast == b && rows[|rows| - 1].status == status then 1 else 0
  }

  function Total(rows: seq<Row>, b: nat): nat {
    if rows == [] then 0
    else Total(rows[..|rows| - 1], b) + if rows[|rows| - 1].broadcast == b then 1 else 0
  }

  lemma EventKeepsClosed(q: Queue, e: Event, max: nat)
    requires Closed(q)
    ensures Closed(Apply(q, e, max))
    ensures forall b :: b in q.progress ==>
              (b in Apply(q, e, max).progress && (q.progress[b] == Done ==> Apply(q, e, max).progress[b] == Done))
  {
    match e
    case Work(limit, fates) =>
      forall i | 0 <= i < |q.rows|
        ensures Pass(q.rows, limit, fates, max)[i].broadcast == q.rows[i].broadcast
        ensures Pass(q.rows, limit, fates, max)[i].status == Pending ==> q.rows[i].status == Pending
      {
        SettledRowsAreNeverTouched(q.rows, limit, fates, max, i);
      }
    case Finish(succeed) =>
      forall i | 0 <= i < |q.rows| && q.rows[i].status == Pending
        ensures HasPending(q.rows, q.rows[i].broadcast)
      {}
    case NewBroadcast(id, emails) =>
  }

  /** A broadcast is done only when it has no pending delivery, and it stays so whatever passes,
      closings and new broadcasts follow: its total is its sent and its failed. */
  lemma {:induction false} DoneStaysDone(q: Queue, events: seq<Event>, max: nat, b: nat)
    requires Closed(q)
    ensures Closed(After(q, events, max))
    ensures b in q.progress && q.progress[b] == Done ==>
              b in After(q, events, max).progress && After(q, events, max).progress[b] == Done
    ensures b in After(q, events, max).progress && After(q, events, max).progress[b] == Done ==>
              Total(After(q, events, max).rows, b) ==
              Count(After(q, events, max).rows, b, Sent) + Count(After(q, events, max).rows, b, Failed)
  {
    if events != [] {
      var n := |events| - 1;
      DoneStaysDone(q, events[..n], max, b);
      EventKeepsClosed(After(q, events[..n], max), events[n], max);
    }
    var e := After(q, events, max);
    CountsAddUp(e.rows, b);
    if b in e.progress && e.progress[b] == Done {
      NothingPendingCounted(e.rows, b);
    }
  }

  /** GetBroadcastSummary's numbers: total = sent + failed + pending. */
  lemma {:induction false} CountsAddUp(rows: seq<Row>, b: nat)
    ensures Total(rows, b) == Count(rows, b, Sent) + Count(rows, b, Failed) + Count(rows, b, Pending)
  {
    if rows != [] {
      CountsAddUp(rows[..|rows| - 1], b);
    }
  }

  lemma {:induction false} NothingPendingCounted(rows: seq<Row>, b: nat)
    requires forall i :: 0 <= i < |rows| && rows[i].broadcast == b ==> rows[i].status != Pending
    ensures Count(rows, b, Pending) == 0
  {
    if rows != [] {
      NothingPendingCounted(rows[..|rows| - 1], b);
    }
  }

  // ---- the worker

  datatype Send = Delivered | Refused | Panicked

  class Worker {
    var rows: seq<Row>
    var progress: map<nat, Progress>
    const batchSize: nat
    const maxAttempts: nat
    const hasMailer: bool

    constructor (batchSize: nat, maxAttempts: nat, hasMailer: bool)
      requires batchSize > 0 && maxAttempts > 0
      ensures rows == [] && progress == map[] && this.batchSize == batchSize && this.maxAttempts == maxAttempts
      ensures this.hasMailer == hasMailer
    {
      this.batchSize, this.maxAttempts, this.hasMailer := batchSize, maxAttempts, hasMailer;
      rows, progress := [], map[];
    }

    /** sendGuarded: the mailer's answer, with a panic turned into an error. */
    method SendGuarded(id: nat) returns (delivered: bool, ghost answer: Send)
      requires id < |rows|
      modifies this`rows
      ensures delivered <==> answer == Delivered
      ensures rows == old(rows)[id := old(rows)[id].(sends := old(rows)[id].sends + 1)]
    {
      rows := rows[id := rows[id].(sends := rows[id].sends + 1)];
      var said: Send := *;
      answer := said;
      delivered := said == Delivered;
    }

    method MarkDeliverySent(id: nat) returns (landed: bool)
      requires id < |rows|
      modifies this`rows
      ensures landed ==> |rows| == |old(rows)| && rows[id].status == Sent && rows[id].attempts == old(rows)[id].attempts
      ensures rows == if landed then old(rows)[id := MarkSent(old(rows)[id])] else old(rows)
    {
      landed := *;
      if landed {
        rows := rows[id := MarkSent(rows[id])];
      }
    }

    method MarkDeliveryFailed(id: nat) returns (landed: bool)
      requires id < |rows|
      modifies this`rows
      ensures landed ==>
                |rows| == |old(rows)| && rows[id].attempts == old(rows)[id].attempts + 1 &&
                rows[id].status == if old(rows)[id].attempts + 1 >= maxAttempts then Failed else Pending
      ensures rows == if landed then old(rows)[id := MarkFailed(old(rows)[id], maxAttempts)] else old(rows)
    {
      landed := *;
      if landed {
        rows := rows[id := MarkFailed(rows[id], maxAttempts)];
      }
    }

    /** One delivery of a pass. A broadcast read earlier in the pass is not read again. */
    method Deliver(id: nat, cache: set<nat>) returns (cache': set<nat>, ghost fate: Fate)
      requires id < |rows|
      modifies this`rows
      ensures rows == old(rows)[id := Process(old(rows)[id], fate, maxAttempts)]
      ensures fate.mailer == hasMailer
      ensures old(rows)[id].broadcast in cache ==> fate.found
      ensures cache' == if fate.found then cache + {old(rows)[id].broadcast} else cache
    {
      var was := rows[id];
      cache' := cache;
      var found := was.broadcast in cache;
      var delivered, sent, failed := false, false, false;
      if !found {
        found := *;
      }
      if !found {
        failed := MarkDeliveryFailed(id);
      } else {
        cache' := cache + {was.broadcast};
        if !hasMailer {
          failed := MarkDeliveryFailed(id);
        } else {
          ghost var answer;
          delivered, answer := SendGuarded(id);
          if delivered {
            sent := MarkDeliverySent(id);
          }
          if !sent {
            failed := MarkDeliveryFailed(id);
            if !failed {
              // The database keeps nothing of this send; the history does.
              rows := rows[id := rows[id].(unmarked := rows[id].unmarked + 1)];
            }
          }
        }
      }
      fate := Fate(found, hasMailer, delivered, sent, failed);
    }

    /** RunOnce: one batch, then finalize. The ghost results say what the machine's step was. */
    method RunOnce() returns (ok: bool, n: nat, ghost fates: seq<Fate>, ghost succeed: set<nat>)
      modifies this
      ensures !ok ==> rows == old(rows) && progress == old(progress) && n == 0
      ensures ok ==> n == |NextPending(old(rows), 0, batchSize)| == |fates|
      ensures ok ==> rows == Pass(old(rows), batchSize, fates, maxAttempts)
      ensures ok ==> progress == Finalize(Queue(rows, old(progress)), succeed).progress
    {
      fates, succeed, n := [], {}, 0;
      ok := *;
      if !ok { return; }
      ghost var start := rows;
      var ds := NextPending(rows, 0, batchSize);
      var cache: set<nat> := {};
      assert start == ProcessAll(start, ds, [], maxAttempts);
      for i := 0 to |ds|
        invariant |rows| == |start| && |fates| == i && progress == old(progress)
        invariant rows == ProcessAll(start, ds, fates, maxAttempts)
      {
        ghost var fate;
        cache, fate := Deliver(ds[i], cache);
        OneMoreFate(start, ds, fates, fate, maxAttempts);
        fates := fates + [fate];
      }
      succeed := FinalizeAll();
      n := |ds|;
    }

    /** finalize: the list is read once; a failed list, count or mark is logged and skipped. */
    method FinalizeAll() returns (ghost succeed: set<nat>)
      modifies this`progress
      ensures progress == Finalize(Queue(rows, old(progress)), succeed).progress
    {
      ghost var q := Queue(rows, progress);
      succeed := {};
      var listed: bool := *;
      assert progress == Finalize(q, succeed).progress;
      if !listed { return; }
      var rest := set b | b in progress && progress[b] == Sending;
      while rest != {}
        invariant rest <= set b | b in q.progress && q.progress[b] == Sending
        invariant rest !! succeed
        invariant progress == Finalize(q, succeed).progress
        decreases rest
      {
        var b :| b in rest;
        rest := rest - {b};
        var counted: bool, marked: bool := *, *;
        if counted && !HasPending(rows, b) {
          if marked {
            progress := progress[b := Done];
            succeed := succeed + {b};
          }
        }
      }
    }
  }

  lemma {:induction false} OneMoreFate(rows: seq<Row>, ids: seq<nat>, fates: seq<Fate>, f: Fate, max: nat)
    requires |fates| < |ids|
    requires forall k :: 0 <= k < |ids| ==> ids[k] < |rows|
    ensures var before := ProcessAll(rows, ids, fates, max);
            var i := ids[|fates|];
            ProcessAll(rows, ids, fates + [f], max) == before[i := Process(before[i], f, max)]
    decreases |ids|
  {
    if fates != [] {
      OneMoreFate(rows[ids[0] := Process(rows[ids[0]], fates[0], max)], ids[1..], fates[1..], f, max);
      assert (fates + [f])[1..] == fates[1..] + [f];
    }
  }
}
