/** The Kafka consume loop with retries and a dead-letter queue (shared/kafka_client.py), over one partition. */
module Consumer {
  import opened Basics

  /** How the handler and the broker answer for one delivered message. */
  datatype Answers = Answers(handlerOk: bool, commitOk: bool, dlqOk: bool, dlqCommitOk: bool)

  /** What one consumer.poll call brings. */
  datatype Poll = Nothing | EndOfPartition | BrokerError | Message(answers: Answers)

  /** Which offset a message poll delivers: the lowest uncommitted one, or the one after the last delivered. */
  datatype Policy = Redeliver | MoveOn

  datatype DeadLetter = DeadLetter(offset: nat, retryCount: int)

  /** handled, failures and dlq record what happened; the loop itself keeps committed, tracker and errors. */
  datatype State = State(
    committed: nat,
    position: nat,
    tracker: map<nat, int>,
    errors: int,
    stopped: bool,
    handled: set<nat>,
    failures: seq<nat>,
    dlq: seq<DeadLetter>)

  datatype Config = Config(maxErrors: int, maxRetries: int, policy: Policy)

  function Offset(cfg: Config, s: State): nat { if cfg.policy.Redeliver? then s.committed else s.position }

  /** One turn of the loop. */
  function Turn(cfg: Config, s: State, poll: Poll): State {
    if s.stopped then s
    else match poll
      case Nothing => s
      case EndOfPartition => s
      case BrokerError => s.(errors := s.errors + 1, stopped := s.errors + 1 >= cfg.maxErrors)
      case Message(a) => Deliver(cfg, s.(errors := 0, position := Offset(cfg, s) + 1), Offset(cfg, s), a)
  }

  function Deliver(cfg: Config, s: State, offset: nat, a: Answers): State {
    var seen := if a.handlerOk then s.(handled := s.handled + {offset}) else s;
    if a.handlerOk && a.commitOk then seen.(committed := offset + 1, tracker := s.tracker - {offset})
    else
      var count := (if offset in s.tracker then s.tracker[offset] else 0) + 1;
      var failed := seen.(tracker := s.tracker[offset := count], failures := s.failures + [offset]);
      if count < cfg.maxRetries then failed
      else if !a.dlqOk then failed.(stopped := true)
      else
        var buried := failed.(dlq := s.dlq + [DeadLetter(offset, count)]);
        if !a.dlqCommitOk then buried.(stopped := true)
        else buried.(committed := offset + 1, tracker := failed.tracker - {offset})
  }

  function Loop(cfg: Config, s: State, polls: seq<Poll>): State {
    if |polls| == 0 then s else Turn(cfg, Loop(cfg, s, polls[..|polls| - 1]), polls[|polls| - 1])
  }

  const FRESH := State(0, 0, map[], 0, false, {}, [], [])

  // ---------------------------------------------------------------------------
  // With redelivery
  // ---------------------------------------------------------------------------

  /** The retry count a dead letter carries: the configured maximum, or one if that is smaller. */
  function Attempts(cfg: Config): int { if cfg.maxRetries < 1 then 1 else cfg.maxRetries }

  /** What holds of one offset: below the committed one it is done with, at it the tracker counts its failures, and
      above it nothing has happened. */
  predicate OffsetOk(cfg: Config, s: State, o: nat) {
    && Count(s.failures, o) <= Attempts(cfg)
    && (o < s.committed ==> o !in s.tracker && (o in s.handled || DeadLetter(o, Attempts(cfg)) in s.dlq))
    && (o == s.committed ==> Count(s.failures, o) == if o in s.tracker then s.tracker[o] else 0)
    && (o == s.committed && o in s.tracker && !s.stopped ==> 0 < s.tracker[o] < cfg.maxRetries)
    && (o > s.committed ==> o !in s.tracker && Count(s.failures, o) == 0)
  }

  ghost predicate Inv(cfg: Config, s: State) {
    && (forall o: nat :: OffsetOk(cfg, s, o))
    && (forall d :: d in s.dlq ==> d.retryCount == Attempts(cfg))
  }

  lemma DeliverOffset(cfg: Config, s: State, a: Answers, o: nat)
    requires Inv(cfg, s) && !s.stopped
    ensures OffsetOk(cfg, Deliver(cfg, s, s.committed, a), o)
  {
    assert OffsetOk(cfg, s, o) && OffsetOk(cfg, s, s.committed);
    CountAppend(s.failures, s.committed, o);
    var s' := Deliver(cfg, s, s.committed, a);
    assert DeadLetter(o, Attempts(cfg)) in s.dlq ==> DeadLetter(o, Attempts(cfg)) in s'.dlq;
  }

  lemma DeliverKeepsInv(cfg: Config, s: State, a: Answers)
    requires Inv(cfg, s) && !s.stopped
    ensures Inv(cfg, Deliver(cfg, s, s.committed, a))
  {
    var s' := Deliver(cfg, s, s.committed, a);
    assert OffsetOk(cfg, s, s.committed);
    forall o: nat ensures OffsetOk(cfg, s', o) {
      DeliverOffset(cfg, s, a, o);
    }
  }

  lemma TurnKeepsInv(cfg: Config, s: State, poll: Poll)
    requires cfg.policy.Redeliver? && Inv(cfg, s)
    ensures Inv(cfg, Turn(cfg, s, poll))
  {
    if !s.stopped {
      match poll {
        case BrokerError =>
          forall o: nat ensures OffsetOk(cfg, Turn(cfg, s, poll), o) {
            assert OffsetOk(cfg, s, o);
          }
        case Message(a) =>
          var s0 := s.(errors := 0, position := s.committed + 1);
          forall o: nat ensures OffsetOk(cfg, s0, o) {
            assert OffsetOk(cfg, s, o);
          }
          DeliverKeepsInv(cfg, s0, a);
        case _ =>
      }
    }
  }

  lemma {:induction false} LoopKeepsInv(cfg: Config, polls: seq<Poll>)
    requires cfg.policy.Redeliver?
    ensures Inv(cfg, Loop(cfg, FRESH, polls))
  {
    if |polls| != 0 {
      LoopKeepsInv(cfg, polls[..|polls| - 1]);
      TurnKeepsInv(cfg, Loop(cfg, FRESH, polls[..|polls| - 1]), polls[|polls| - 1]);
    }
  }

  /** With redelivery nothing below the committed offset is lost: it was handled, or buried after exactly the configured
      number of attempts; no message fails more often than that, and no committed message is still being counted. */
  lemma NothingLost(cfg: Config, polls: seq<Poll>, o: nat)
    requires cfg.policy.Redeliver?
    ensures var s := Loop(cfg, FRESH, polls);
      && (o < s.committed ==> o in s.handled || DeadLetter(o, Attempts(cfg)) in s.dlq)
      && (o < s.committed ==> o !in s.tracker)
      && Count(s.failures, o) <= Attempts(cfg)
      && (forall d :: d in s.dlq ==> d.retryCount == Attempts(cfg))
  {
    LoopKeepsInv(cfg, polls);
    assert OffsetOk(cfg, Loop(cfg, FRESH, polls), o);
  }

  /** Broker errors since the last message, whatever idle polls lie between. */
  function ErrorsInARow(polls: seq<Poll>): nat {
    if |polls| == 0 then 0
    else match polls[|polls| - 1]
      case BrokerError => ErrorsInARow(polls[..|polls| - 1]) + 1
      case Message(_) => 0
      case _ => ErrorsInARow(polls[..|polls| - 1])
  }

  lemma {:induction false} ErrorsCounted(cfg: Config, polls: seq<Poll>)
    ensures !Loop(cfg, FRESH, polls).stopped ==> Loop(cfg, FRESH, polls).errors == ErrorsInARow(polls)
  {
    if |polls| != 0 {
      ErrorsCounted(cfg, polls[..|polls| - 1]);
    }
  }

  /** A running loop stops at a poll if and only if that is the maxErrors-th broker error since the last message, or a
      message fails for the last time and the dead-letter queue or the commit after it fails too. */
  lemma StopsIff(cfg: Config, polls: seq<Poll>, poll: Poll)
    requires !Loop(cfg, FRESH, polls).stopped
    ensures Loop(cfg, FRESH, polls + [poll]).stopped <==>
      match poll
      case BrokerError => ErrorsInARow(polls) + 1 >= cfg.maxErrors
      case Message(a) =>
        var s := Loop(cfg, FRESH, polls);
        var o := if cfg.policy.Redeliver? then s.committed else s.position;
        && !(a.handlerOk && a.commitOk) && !(a.dlqOk && a.dlqCommitOk)
        && (if o in s.tracker then s.tracker[o] else 0) + 1 >= cfg.maxRetries
      case _ => false
  {
    ErrorsCounted(cfg, polls);
    assert (polls + [poll])[..|polls|] == polls;
  }

  // ---------------------------------------------------------------------------
  // Without redelivery
  // ---------------------------------------------------------------------------

  /** The messages that reached the loop while it was running; if poll moves on, the o-th one has offset o. */
  function Delivered(cfg: Config, polls: seq<Poll>): seq<Answers> {
    if |polls| == 0 then []
    else
      var n := |polls| - 1;
      var front := Delivered(cfg, polls[..n]);
      if Loop(cfg, FRESH, polls[..n]).stopped || !polls[n].Message? then front else front + [polls[n].answers]
  }

  /** A message delivered once has its offset committed: it was handled, or buried at its first failure. */
  predicate Commits(cfg: Config, a: Answers) {
    (a.handlerOk && a.commitOk) || (cfg.maxRetries <= 1 && a.dlqOk && a.dlqCommitOk)
  }

  predicate Buries(cfg: Config, a: Answers) {
    cfg.maxRetries <= 1 && !(a.handlerOk && a.commitOk) && a.dlqOk
  }

  /** One past the last offset that was committed. */
  function LastCommit(cfg: Config, ms: seq<Answers>): nat {
    if |ms| == 0 then 0 else if Commits(cfg, ms[|ms| - 1]) then |ms| else LastCommit(cfg, ms[..|ms| - 1])
  }

  /** What the loop has done to offset o, given the messages delivered so far. */
  predicate MovedOnAt(cfg: Config, ms: seq<Answers>, s: State, o: nat) {
    && (o in s.handled <==> o < |ms| && ms[o].handlerOk)
    && (DeadLetter(o, 1) in s.dlq <==> o < |ms| && Buries(cfg, ms[o]))
    && (o in s.tracker ==> o < |ms| && s.tracker[o] == 1)
    && (o < s.committed && cfg.maxRetries <= 1 ==> o in s.handled || DeadLetter(o, 1) in s.dlq)
  }

  ghost predicate MovedOn(cfg: Config, ms: seq<Answers>, s: State) {
    && s.position == |ms| && s.committed == LastCommit(cfg, ms)
    && (cfg.maxRetries <= 1 && !s.stopped ==> s.committed == s.position)
    && (forall d :: d in s.dlq ==> d.retryCount == 1)
    && (forall o: nat :: MovedOnAt(cfg, ms, s, o))
  }

  lemma {:induction false} LastCommitBound(cfg: Config, ms: seq<Answers>)
    ensures LastCommit(cfg, ms) <= |ms|
  {
    if |ms| != 0 {
      LastCommitBound(cfg, ms[..|ms| - 1]);
    }
  }

  lemma DeliverMovesOn(cfg: Config, ms: seq<Answers>, s: State, a: Answers)
    requires MovedOn(cfg, ms, s) && !s.stopped
    ensures MovedOn(cfg, ms + [a], Deliver(cfg, s.(errors := 0, position := |ms| + 1), |ms|, a))
  {
    var s0 := s.(errors := 0, position := |ms| + 1);
    var s' := Deliver(cfg, s0, |ms|, a);
    LastCommitBound(cfg, ms);
    assert (ms + [a])[..|ms|] == ms;
    assert MovedOnAt(cfg, ms, s, |ms|);
    forall o: nat ensures MovedOnAt(cfg, ms + [a], s', o) {
      assert MovedOnAt(cfg, ms, s, o);
      assert DeadLetter(o, 1) in s'.dlq <==> DeadLetter(o, 1) in s.dlq || (o == |ms| && Buries(cfg, a));
    }
  }

  /** If poll simply moves on, as nothing in the loop seeks back: over every run, exactly the messages whose handler
      succeeded are handled, no retry count passes one, and the dead-letter queue is used only when one failure is
      enough for it. */
  lemma {:induction false} MovingOnRuns(cfg: Config, polls: seq<Poll>)
    requires cfg.policy.MoveOn?
    ensures MovedOn(cfg, Delivered(cfg, polls), Loop(cfg, FRESH, polls))
  {
    if |polls| != 0 {
      var n := |polls| - 1;
      MovingOnRuns(cfg, polls[..n]);
      var ms, s := Delivered(cfg, polls[..n]), Loop(cfg, FRESH, polls[..n]);
      if !s.stopped && polls[n].Message? {
        DeliverMovesOn(cfg, ms, s, polls[n].answers);
      } else {
        var s' := Turn(cfg, s, polls[n]);
        forall o: nat ensures MovedOnAt(cfg, ms, s', o) {
          assert MovedOnAt(cfg, ms, s, o);
        }
      }
    }
  }

  /** With the configured retries, none of a run's failed messages is ever retried or buried. */
  lemma MovingOnNeverBuries(cfg: Config, polls: seq<Poll>)
    requires cfg.policy.MoveOn?
    ensures Loop(cfg, FRESH, polls).dlq == [] || cfg.maxRetries <= 1
    ensures forall o :: o in Loop(cfg, FRESH, polls).tracker ==> Loop(cfg, FRESH, polls).tracker[o] == 1
  {
    var s, ms := Loop(cfg, FRESH, polls), Delivered(cfg, polls);
    MovingOnRuns(cfg, polls);
    forall o | o in s.tracker ensures s.tracker[o] == 1 {
      assert MovedOnAt(cfg, ms, s, o);
    }
    forall d | d in s.dlq ensures cfg.maxRetries <= 1 {
      assert d == DeadLetter(d.offset, 1) && MovedOnAt(cfg, ms, s, d.offset);
    }
    assert s.dlq != [] ==> s.dlq[0] in s.dlq;
  }

  /** Over every run, a message below the committed offset is lost, neither handled nor buried, if and only if its
      handler failed and one failure is not enough for the dead-letter queue. */
  lemma MovingOnLoses(cfg: Config, polls: seq<Poll>, o: nat)
    requires cfg.policy.MoveOn? && o < Loop(cfg, FRESH, polls).committed
    ensures o < |Delivered(cfg, polls)|
    ensures var s := Loop(cfg, FRESH, polls);
      (o !in s.handled && (forall d :: d in s.dlq ==> d.offset != o))
      <==> cfg.maxRetries >= 2 && !Delivered(cfg, polls)[o].handlerOk
  {
    var s, ms := Loop(cfg, FRESH, polls), Delivered(cfg, polls);
    MovingOnRuns(cfg, polls);
    LastCommitBound(cfg, ms);
    assert MovedOnAt(cfg, ms, s, o);
    forall d | d in s.dlq && d.offset == o ensures d == DeadLetter(o, 1) {
    }
  }

  // ---------------------------------------------------------------------------
  // The loop object
  // ---------------------------------------------------------------------------

  class ConsumerLoop {
    const cfg: Config
    var committed: nat
    var position: nat
    var tracker: map<nat, int>
    var errors: int
    var handled: set<nat>
    var failures: seq<nat>
    var dlq: seq<DeadLetter>

    constructor (cfg: Config)
      ensures this.cfg == cfg && View(false) == FRESH
    {
      this.cfg := cfg;
      committed, position, tracker, errors := 0, 0, map[], 0;
      handled, failures, dlq := {}, [], [];
    }

    function View(stopped: bool): State
      reads this
    {
      State(committed, position, tracker, errors, stopped, handled, failures, dlq)
    }

    /** The try block of one message; true when an exception leaves the loop. */
    method HandleMessage(offset: nat, a: Answers) returns (raised: bool)
      modifies this
      ensures View(raised) == Deliver(cfg, old(View(false)), offset, a)
    {
      if a.handlerOk {
        handled := handled + {offset};
        if a.commitOk {
          committed := offset + 1;
          tracker := tracker - {offset};
          return false;
        }
      }
      var count := (if offset in tracker then tracker[offset] else 0) + 1;
      tracker := tracker[offset := count];
      failures := failures + [offset];
      if count >= cfg.maxRetries {
        if !a.dlqOk {
          return true;
        }
        dlq := dlq + [DeadLetter(offset, count)];
        if !a.dlqCommitOk {
          return true;
        }
        committed := offset + 1;
        tracker := tracker - {offset};
      }
      return false;
    }

    /** The body of the loop for one poll result. */
    method TakeTurn(poll: Poll) returns (raised: bool)
      modifies this
      ensures View(raised) == Turn(cfg, old(View(false)), poll)
    {
      match poll
      case Nothing =>
        return false;
      case EndOfPartition =>
        return false;
      case BrokerError =>
        errors := errors + 1;
        return errors >= cfg.maxErrors;
      case Message(a) =>
        raised := TakeMessage(a);
    }

    /** A delivered message resets the error count. */
    method TakeMessage(a: Answers) returns (raised: bool)
      modifies this
      ensures View(raised) == Turn(cfg, old(View(false)), Message(a))
    {
      var offset := if cfg.policy.Redeliver? then committed else position;
      ghost var before := View(false);
      errors, position := 0, offset + 1;
      assert View(false) == before.(errors := 0, position := offset + 1);
      raised := HandleMessage(offset, a);
    }

    /** consume_loop over a sequence of poll results; it ends early when an exception leaves the loop. */
    method ConsumeLoop(polls: seq<Poll>) returns (raised: bool)
      modifies this
      ensures View(raised) == Loop(cfg, old(View(false)), polls)
    {
      raised := false;
      ghost var start := View(false);
      for n := 0 to |polls|
        invariant View(raised) == Loop(cfg, start, polls[..n])
      {
        assert polls[..n + 1][..n] == polls[..n];
        if !raised {
          raised := TakeTurn(polls[n]);
        }
      }
      assert polls[..|polls|] == polls;
    }
  }
}

/** The deduplication at the head of the compliance monitor's handler (services/compliance-monitor/main.py). */
module Dedup {
  import opened Basics

  /** One delivery: the payload's event id, if any, and whether the processed_events access raises. */
  datatype Delivery = Delivery(eventId: Option<nat>, dbFails: bool)

  datatype State = State(processed: set<nat>, screened: seq<nat>)

  /** handle_event up to the screening: duplicates return early, but a database error falls through to it. */
  function Handle(s: State, d: Delivery): State {
    if d.eventId.None? then s
    else
      var e := d.eventId.value;
      if d.dbFails then s.(screened := s.screened + [e])
      else if e in s.processed then s
      else State(s.processed + {e}, s.screened + [e])
  }

  function HandleAll(ds: seq<Delivery>): State {
    if |ds| == 0 then State({}, []) else Handle(HandleAll(ds[..|ds| - 1]), ds[|ds| - 1])
  }

  /** Deliveries of the event whose database access failed. */
  function Unchecked(ds: seq<Delivery>, e: nat): nat {
    if |ds| == 0 then 0
    else Unchecked(ds[..|ds| - 1], e) + (if ds[|ds| - 1] == Delivery(Some(e), true) then 1 else 0)
  }

  /** An event is screened once for all its checked deliveries together and once more for each unchecked one. */
  lemma {:induction false} ScreenedOnce(ds: seq<Delivery>, e: nat)
    ensures Count(HandleAll(ds).screened, e) == Unchecked(ds, e) + (if e in HandleAll(ds).processed then 1 else 0)
    ensures e in HandleAll(ds).processed <==> Delivery(Some(e), false) in ds
  {
    if |ds| != 0 {
      var front, d := ds[..|ds| - 1], ds[|ds| - 1];
      ScreenedOnce(front, e);
      assert ds == front + [d];
      var s := HandleAll(front);
      if d.eventId.Some? {
        assert (s.screened + [d.eventId.value])[..|s.screened|] == s.screened;
      }
    }
  }
}
