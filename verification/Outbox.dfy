/** The transactional outbox and its publishers (shared/outbox.py, services/outbox-publisher/main.py).

    Business transactions add events that become rows when they commit.  Any number of publishers claim batches of
    unpublished rows with FOR UPDATE SKIP LOCKED, send them one by one, mark the batch and commit; they may crash or be
    refused between any two of these actions, which releases the rows but does not take back what was sent. */
module Outbox {
  import opened Basics
  import opened Ledger

  const BATCH_SIZE := 100

  type Event = nat

  datatype Row = Row(event: Event, published: bool)

  datatype Publisher = Publisher(batch: seq<nat>, sent: nat)

  /** log is the broker's log as row numbers; crashed lists, batch after batch, the rows of the batches that were
      lost. */
  datatype State = State(
    business: map<nat, seq<Event>>,
    rows: seq<Row>,
    publishers: map<nat, Publisher>,
    log: seq<nat>,
    crashed: seq<nat>)

  datatype Action =
    | Begin(t: nat)
    | InsertEvent(t: nat, event: Event)
    | CommitBusiness(t: nat)
    | AbortBusiness(t: nat)
    | Claim(p: nat, batch: seq<nat>)
    | Send(p: nat)
    | MarkAndCommit(p: nat)
    | Crash(p: nat)

  predicate RowLocked(s: State, i: nat) { exists p :: p in s.publishers && i in s.publishers[p].batch }

  predicate Enabled(s: State, a: Action) {
    match a
    case Begin(t) => t !in s.business
    case InsertEvent(t, _) => t in s.business
    case CommitBusiness(t) => t in s.business
    case AbortBusiness(t) => t in s.business
    case Claim(p, batch) =>
      p !in s.publishers && Distinct(batch) && 0 < |batch| <= BATCH_SIZE
      && forall i :: i in batch ==> i < |s.rows| && !s.rows[i].published && !RowLocked(s, i)
    case Send(p) => p in s.publishers && s.publishers[p].sent < |s.publishers[p].batch|
    case MarkAndCommit(p) => p in s.publishers && s.publishers[p].sent == |s.publishers[p].batch|
    case Crash(p) => p in s.publishers
  }

  function NewRows(events: seq<Event>): (rows: seq<Row>)
    ensures |rows| == |events| && forall i :: 0 <= i < |rows| ==> rows[i] == Row(events[i], false)
  {
    seq(|events|, i requires 0 <= i < |events| => Row(events[i], false))
  }

  /** MARK_PUBLISHED_QUERY. */
  function Mark(rows: seq<Row>, batch: seq<nat>): (r: seq<Row>)
    ensures |r| == |rows|
    ensures forall i :: 0 <= i < |rows| ==> r[i] == if i in batch then rows[i].(published := true) else rows[i]
  {
    seq(|rows|, i requires 0 <= i < |rows| => if i in batch then rows[i].(published := true) else rows[i])
  }

  function Apply(s: State, a: Action): State
    requires Enabled(s, a)
  {
    match a
    case Begin(t) => s.(business := s.business[t := []])
    case InsertEvent(t, e) => s.(business := s.business[t := s.business[t] + [e]])
    case CommitBusiness(t) => s.(rows := s.rows + NewRows(s.business[t]), business := s.business - {t})
    case AbortBusiness(t) => s.(business := s.business - {t})
    case Claim(p, batch) => s.(publishers := s.publishers[p := Publisher(batch, 0)])
    case Send(p) =>
      var me := s.publishers[p];
      s.(log := s.log + [me.batch[me.sent]], publishers := s.publishers[p := me.(sent := me.sent + 1)])
    case MarkAndCommit(p) =>
      s.(rows := Mark(s.rows, s.publishers[p].batch), publishers := s.publishers - {p})
    case Crash(p) =>
      s.(crashed := s.crashed + s.publishers[p].batch, publishers := s.publishers - {p})
  }

  // ---------------------------------------------------------------------------
  // Invariant
  // ---------------------------------------------------------------------------

  /** A live publisher has sent row i in its current batch. */
  predicate InFlight(s: State, i: nat) {
    exists p :: p in s.publishers && s.publishers[p].sent <= |s.publishers[p].batch|
      && i in s.publishers[p].batch[..s.publishers[p].sent]
  }

  predicate PublisherOk(s: State, me: Publisher) {
    && Distinct(me.batch) && me.sent <= |me.batch|
    && forall i :: i in me.batch ==> i < |s.rows| && !s.rows[i].published
  }

  /** Copies of a row in the log: at least one if it is published or in flight; at most one for being published or in
      flight, plus one per lost batch that contained it. */
  predicate RowOk(s: State, i: nat)
    requires i < |s.rows|
  {
    && (s.rows[i].published || InFlight(s, i) ==> Count(s.log, i) >= 1)
    && Count(s.log, i) <= Count(s.crashed, i) + (if s.rows[i].published || InFlight(s, i) then 1 else 0)
  }

  predicate Exclusive(s: State) {
    forall p, q, i :: p in s.publishers && q in s.publishers && p != q ==>
      !(i in s.publishers[p].batch && i in s.publishers[q].batch)
  }

  predicate Inv(s: State) {
    && (forall i :: 0 <= i < |s.rows| ==> RowOk(s, i))
    && (forall i :: i in s.log ==> i < |s.rows|)
    && (forall i :: i in s.crashed ==> i < |s.rows|)
    && (forall p :: p in s.publishers ==> PublisherOk(s, s.publishers[p]))
    && Exclusive(s)
  }

  /** Whether a row is in flight is decided by its one holder. */
  lemma InFlightIn(s: State, p: nat, i: nat)
    requires Exclusive(s) && p in s.publishers && i in s.publishers[p].batch
      && s.publishers[p].sent <= |s.publishers[p].batch|
    ensures InFlight(s, i) <==> i in s.publishers[p].batch[..s.publishers[p].sent]
  {
  }

  lemma FlightsExist(s: State, i: nat)
    requires Inv(s)
    ensures InFlight(s, i) ==> i < |s.rows|
  {
    if InFlight(s, i) {
      var p :| p in s.publishers && s.publishers[p].sent <= |s.publishers[p].batch|
        && i in s.publishers[p].batch[..s.publishers[p].sent];
      assert PublisherOk(s, s.publishers[p]) && i in s.publishers[p].batch;
    }
  }

  /** Steps that leave log, crashed and publishers alone. */
  lemma BusinessKeepsInv(s: State, events: seq<Event>, business: map<nat, seq<Event>>)
    requires Inv(s)
    ensures Inv(s.(rows := s.rows + NewRows(events), business := business))
  {
    var s' := s.(rows := s.rows + NewRows(events), business := business);
    forall i: nat | i < |s'.rows| ensures RowOk(s', i) {
      assert InFlight(s', i) <==> InFlight(s, i);
      if i < |s.rows| {
        assert RowOk(s, i);
      } else {
        CountIn(s.log, i);
        FlightsExist(s, i);
      }
    }
    forall p | p in s'.publishers ensures PublisherOk(s', s'.publishers[p]) {
      assert PublisherOk(s, s.publishers[p]);
    }
  }

  lemma ClaimKeepsInv(s: State, p: nat, batch: seq<nat>)
    requires Inv(s) && Enabled(s, Claim(p, batch))
    ensures Inv(Apply(s, Claim(p, batch)))
  {
    var s' := Apply(s, Claim(p, batch));
    forall i: nat | i < |s'.rows| ensures RowOk(s', i) {
      assert InFlight(s', i) <==> InFlight(s, i) by {
        assert s'.publishers[p].batch[..0] == [];
        forall q | q in s.publishers ensures s'.publishers[q] == s.publishers[q] {
        }
      }
      assert RowOk(s, i);
    }
    forall q | q in s'.publishers ensures PublisherOk(s', s'.publishers[q]) {
      if q != p {
        assert PublisherOk(s, s.publishers[q]);
      }
    }
  }

  lemma SendRow(s: State, p: nat, i: nat)
    requires Inv(s) && Enabled(s, Send(p)) && i < |s.rows|
    ensures RowOk(Apply(s, Send(p)), i)
  {
    var me, s' := s.publishers[p], Apply(s, Send(p));
    var x := me.batch[me.sent];
    assert PublisherOk(s, me) && RowOk(s, i);
    CountConcat(s.log, [x], i);
    assert [x][..0] == [];
    var next := s'.publishers[p];
    assert next.batch[..next.sent] == me.batch[..me.sent] + [x];
    if i == x {
      assert i in me.batch;
      InFlightIn(s, p, i);
      assert x !in me.batch[..me.sent];
      assert i in next.batch[..next.sent];
    } else {
      assert InFlight(s', i) <==> InFlight(s, i) by {
        SameFlights(s, s', p, i);
      }
    }
  }

  /** Changing one publisher without changing whether it has sent i leaves i's flight alone. */
  lemma SameFlights(s: State, s': State, p: nat, i: nat)
    requires p in s.publishers && p in s'.publishers && s'.publishers == s.publishers[p := s'.publishers[p]]
    requires s.publishers[p].sent <= |s.publishers[p].batch| && s'.publishers[p].sent <= |s'.publishers[p].batch|
    requires i in s'.publishers[p].batch[..s'.publishers[p].sent]
      <==> i in s.publishers[p].batch[..s.publishers[p].sent]
    ensures InFlight(s', i) <==> InFlight(s, i)
  {
    if InFlight(s, i) {
      var q :| q in s.publishers && s.publishers[q].sent <= |s.publishers[q].batch|
        && i in s.publishers[q].batch[..s.publishers[q].sent];
      assert i in s'.publishers[q].batch[..s'.publishers[q].sent];
    }
    if InFlight(s', i) {
      var q :| q in s'.publishers && s'.publishers[q].sent <= |s'.publishers[q].batch|
        && i in s'.publishers[q].batch[..s'.publishers[q].sent];
      assert i in s.publishers[q].batch[..s.publishers[q].sent];
    }
  }

  lemma SendKeepsInv(s: State, p: nat)
    requires Inv(s) && Enabled(s, Send(p))
    ensures Inv(Apply(s, Send(p)))
  {
    var me, s' := s.publishers[p], Apply(s, Send(p));
    assert PublisherOk(s, me);
    forall i: nat | i < |s'.rows| ensures RowOk(s', i) {
      SendRow(s, p, i);
    }
    forall q | q in s'.publishers ensures PublisherOk(s', s'.publishers[q]) {
      assert PublisherOk(s, s.publishers[q]);
    }
    assert me.batch[me.sent] in me.batch;
  }

  /** A publisher that goes away takes only its own rows out of flight. */
  lemma LeavingFlights(s: State, s': State, p: nat, i: nat)
    requires Exclusive(s) && p in s.publishers && s'.publishers == s.publishers - {p}
    requires s.publishers[p].sent <= |s.publishers[p].batch|
    ensures InFlight(s', i) <==> InFlight(s, i) && i !in s.publishers[p].batch[..s.publishers[p].sent]
    ensures i in s.publishers[p].batch ==> !InFlight(s', i)
  {
    if InFlight(s, i) && i !in s.publishers[p].batch[..s.publishers[p].sent] {
      var q :| q in s.publishers && s.publishers[q].sent <= |s.publishers[q].batch|
        && i in s.publishers[q].batch[..s.publishers[q].sent];
      assert q in s'.publishers;
    }
    if InFlight(s', i) {
      var q :| q in s'.publishers && s'.publishers[q].sent <= |s'.publishers[q].batch|
        && i in s'.publishers[q].batch[..s'.publishers[q].sent];
      assert q in s.publishers && i in s.publishers[q].batch;
      assert i in s.publishers[p].batch ==> q == p;
    }
  }

  lemma MarkKeepsInv(s: State, p: nat)
    requires Inv(s) && Enabled(s, MarkAndCommit(p))
    ensures Inv(Apply(s, MarkAndCommit(p)))
  {
    var me, s' := s.publishers[p], Apply(s, MarkAndCommit(p));
    assert PublisherOk(s, me);
    forall i: nat | i < |s'.rows| ensures RowOk(s', i) {
      assert RowOk(s, i);
      LeavingFlights(s, s', p, i);
      assert me.batch[..me.sent] == me.batch;
    }
    forall q | q in s'.publishers ensures PublisherOk(s', s'.publishers[q]) {
      assert PublisherOk(s, s.publishers[q]);
    }
  }

  lemma CrashKeepsInv(s: State, p: nat)
    requires Inv(s) && Enabled(s, Crash(p))
    ensures Inv(Apply(s, Crash(p)))
  {
    var me, s' := s.publishers[p], Apply(s, Crash(p));
    assert PublisherOk(s, me);
    forall i: nat | i < |s'.rows| ensures RowOk(s', i) {
      assert RowOk(s, i);
      LeavingFlights(s, s', p, i);
      CountConcat(s.crashed, me.batch, i);
      CountIn(me.batch, i);
    }
    forall q | q in s'.publishers ensures PublisherOk(s', s'.publishers[q]) {
      assert PublisherOk(s, s.publishers[q]);
    }
  }

  lemma ActionKeepsInv(s: State, a: Action)
    requires Inv(s) && Enabled(s, a)
    ensures Inv(Apply(s, a))
  {
    match a {
      case CommitBusiness(t) => BusinessKeepsInv(s, s.business[t], s.business - {t});
      case Claim(p, batch) => ClaimKeepsInv(s, p, batch);
      case Send(p) => SendKeepsInv(s, p);
      case MarkAndCommit(p) => MarkKeepsInv(s, p);
      case Crash(p) => CrashKeepsInv(s, p);
      case _ =>
        BusinessKeepsInv(s, [], Apply(s, a).business);
        assert s.rows + NewRows([]) == s.rows;
    }
  }

  // ---------------------------------------------------------------------------
  // Whole runs
  // ---------------------------------------------------------------------------

  const EMPTY := State(map[], [], map[], [], [])

  ghost predicate Possible(s: State, actions: seq<Action>)
    decreases |actions|, 0
  {
    |actions| == 0
    || (Possible(s, actions[..|actions| - 1]) && Enabled(After(s, actions[..|actions| - 1]), actions[|actions| - 1]))
  }

  ghost function After(s: State, actions: seq<Action>): State
    requires Possible(s, actions)
    decreases |actions|, 1
  {
    if |actions| == 0 then s else Apply(After(s, actions[..|actions| - 1]), actions[|actions| - 1])
  }

  lemma {:induction false} RunKeepsInv(s: State, actions: seq<Action>)
    requires Possible(s, actions) && Inv(s)
    ensures Inv(After(s, actions))
  {
    if |actions| != 0 {
      RunKeepsInv(s, actions[..|actions| - 1]);
      ActionKeepsInv(After(s, actions[..|actions| - 1]), actions[|actions| - 1]);
    }
  }

  /** Delivery: in every run a published row is in the log, everything in the log is a committed row, no two live
      publishers hold the same row, and a row is in the log at most once more than the lost batches that contained it;
      so without losses every published row is delivered exactly once. */
  lemma Delivery(actions: seq<Action>, i: nat)
    requires Possible(EMPTY, actions)
    ensures var s := After(EMPTY, actions);
      && (i in s.log ==> i < |s.rows|)
      && Exclusive(s)
      && (i < |s.rows| && s.rows[i].published ==> i in s.log)
      && Count(s.log, i) <= 1 + Count(s.crashed, i)
      && (i < |s.rows| && s.rows[i].published && i !in s.crashed ==> Count(s.log, i) == 1)
  {
    var s := After(EMPTY, actions);
    RunKeepsInv(EMPTY, actions);
    CountIn(s.log, i);
    CountIn(s.crashed, i);
    if i < |s.rows| {
      assert RowOk(s, i);
    }
  }

  /** The events a running transaction has inserted, and those of all committed ones in commit order, read off the
      actions alone. */
  function Inserted(actions: seq<Action>, t: nat): seq<Event> {
    if |actions| == 0 then []
    else
      var front, a := actions[..|actions| - 1], actions[|actions| - 1];
      if a == Begin(t) || a == CommitBusiness(t) || a == AbortBusiness(t) then []
      else if a.InsertEvent? && a.t == t then Inserted(front, t) + [a.event]
      else Inserted(front, t)
  }

  function CommittedEvents(actions: seq<Action>): seq<Event> {
    if |actions| == 0 then []
    else
      var front, a := actions[..|actions| - 1], actions[|actions| - 1];
      if a.CommitBusiness? then CommittedEvents(front) + Inserted(front, a.t) else CommittedEvents(front)
  }

  function EventsOf(rows: seq<Row>): (events: seq<Event>)
    ensures |events| == |rows| && forall i :: 0 <= i < |rows| ==> events[i] == rows[i].event
  {
    seq(|rows|, i requires 0 <= i < |rows| => rows[i].event)
  }

  lemma {:induction false} BusinessRecorded(actions: seq<Action>, t: nat)
    requires Possible(EMPTY, actions)
    ensures t in After(EMPTY, actions).business ==> After(EMPTY, actions).business[t] == Inserted(actions, t)
  {
    if |actions| != 0 {
      BusinessRecorded(actions[..|actions| - 1], t);
    }
  }

  /** The outbox holds exactly the events of the committed transactions, each as one row, in commit order: an aborted
      transaction leaves none, and publishers add, drop and reorder none. */
  lemma {:induction false} RowsAreCommitted(actions: seq<Action>)
    requires Possible(EMPTY, actions)
    ensures EventsOf(After(EMPTY, actions).rows) == CommittedEvents(actions)
  {
    if |actions| != 0 {
      var front, a := actions[..|actions| - 1], actions[|actions| - 1];
      RowsAreCommitted(front);
      if a.CommitBusiness? {
        BusinessRecorded(front, a.t);
      }
      EventsAfter(After(EMPTY, front), a);
    }
  }

  lemma EventsAfter(s: State, a: Action)
    requires Enabled(s, a)
    ensures EventsOf(Apply(s, a).rows) == EventsOf(s.rows) + (if a.CommitBusiness? then s.business[a.t] else [])
  {
  }

  function Unpublished(rows: seq<Row>): nat {
    if |rows| == 0 then 0
    else Unpublished(rows[..|rows| - 1]) + (if rows[|rows| - 1].published then 0 else 1)
  }

  lemma {:induction false} UnpublishedMark(rows: seq<Row>, batch: seq<nat>)
    requires Distinct(batch) && forall i :: i in batch ==> i < |rows| && !rows[i].published
    ensures Unpublished(Mark(rows, batch)) + |batch| == Unpublished(rows)
    decreases |batch|
  {
    if |batch| == 0 {
      assert Mark(rows, batch) == rows;
    } else {
      var n := |batch| - 1;
      var front, i := batch[..n], batch[n];
      InInit(batch);
      assert i in batch && forall j :: j in front ==> j in batch;
      UnpublishedMark(rows, front);
      var mid := Mark(rows, front);
      assert Mark(rows, batch) == mid[i := mid[i].(published := true)];
      UnpublishedFlip(mid, i);
    }
  }

  lemma {:induction false} UnpublishedFlip(rows: seq<Row>, i: nat)
    requires i < |rows| && !rows[i].published
    ensures Unpublished(rows[i := rows[i].(published := true)]) + 1 == Unpublished(rows)
  {
    var n := |rows| - 1;
    var rows' := rows[i := rows[i].(published := true)];
    if i < n {
      UnpublishedFlip(rows[..n], i);
      assert rows'[..n] == rows[..n][i := rows[i].(published := true)];
    } else {
      assert rows'[..n] == rows[..n];
    }
  }

  /** Progress: every batch that commits takes its rows off the backlog; no other publisher action changes it. */
  lemma Progress(s: State, a: Action)
    requires Inv(s) && Enabled(s, a) && !a.CommitBusiness?
    ensures Unpublished(Apply(s, a).rows) + (if a.MarkAndCommit? then |s.publishers[a.p].batch| else 0)
      == Unpublished(s.rows)
  {
    if a.MarkAndCommit? {
      assert PublisherOk(s, s.publishers[a.p]);
      UnpublishedMark(s.rows, s.publishers[a.p].batch);
    }
  }

  // ---------------------------------------------------------------------------
  // The publisher object
  // ---------------------------------------------------------------------------

  /** FETCH_QUERY: the first unpublished rows nobody else holds, in the order of their creation. */
  function Fetch(rows: seq<Row>, locked: set<nat>, limit: nat): (batch: seq<nat>)
    ensures |batch| <= limit && Distinct(batch)
    ensures forall i :: i in batch ==> i < |rows| && !rows[i].published && i !in locked
    ensures forall j, k :: 0 <= j < k < |batch| ==> batch[j] < batch[k]
    ensures forall i: nat :: i < |rows| && !rows[i].published && i !in locked && i !in batch ==>
      |batch| == limit && forall j :: j in batch ==> j < i
  {
    if |rows| == 0 then []
    else
      var n := |rows| - 1;
      var front := Fetch(rows[..n], locked, limit);
      assert forall j :: 0 <= j < |front| ==> front[j] in front;
      if |front| < limit && !rows[n].published && n !in locked then front + [n] else front
  }

  class Session {
    var rows: seq<Row>
    var log: seq<nat>

    constructor (rows: seq<Row>)
      ensures this.rows == rows && log == []
    {
      this.rows, this.log := rows, [];
    }

    /** publish_batch: fails at the first refused send, rolling the marks back but not the sends. */
    method PublishBatch(locked: set<nat>, refused: nat -> bool) returns (published: Option<nat>)
      modifies this
      ensures var batch := Fetch(old(rows), locked, BATCH_SIZE);
        && (published.Some? <==> forall k: nat :: k < |batch| ==> !refused(k))
        && (published.Some? ==> published.value == |batch| && log == old(log) + batch && rows == Mark(old(rows), batch))
        && (published.None? ==> rows == old(rows))
        && |batch| <= 100
        && (published.None? ==> exists k: nat ::
              k < |batch| && refused(k) && log == old(log) + batch[..k] && forall j: nat :: j < k ==> !refused(j))
    {
      var batch := Fetch(rows, locked, BATCH_SIZE);
      for k := 0 to |batch|
        invariant rows == old(rows) && log == old(log) + batch[..k]
        invariant forall j: nat :: j < k ==> !refused(j)
      {
        if refused(k) {
          return None;
        }
        log := log + [batch[k]];
        assert batch[..k + 1] == batch[..k] + [batch[k]];
      }
      assert batch[..|batch|] == batch;
      rows := Mark(rows, batch);
      return Some(|batch|);
    }
  }
}
