/** The transactional outbox: pollers read batches of unpublished events in the order of
    their creation, send them to Kafka and keep book of success and failure. An event is
    named by its position in that order. */
module Outbox {

  const MAX_RETRIES := 10

  type EventId = int
  type PollerId = int

  datatype Row = Row(published: bool, retries: int)

  datatype State = State(rows: seq<Row>, log: seq<EventId>)

  /** What becomes of one event: does the message get into the log, does the call report
      success (then it did), and does the write to the row that follows take effect? */
  datatype Outcome = Outcome(delivered: bool, acknowledged: bool, recorded: bool)

  predicate Honest(o: Outcome) {
    o.acknowledged ==> o.delivered
  }

  /** WHERE published_at IS NULL AND retry_count < MAX_RETRIES */
  predicate Eligible(row: Row) {
    !row.published && row.retries < MAX_RETRIES
  }

  /** The eligible events from position i on, ORDER BY created_at. */
  function EligibleFrom(rows: seq<Row>, i: nat): seq<EventId>
    requires i <= |rows|
    decreases |rows| - i
  {
    if i == |rows| then []
    else (if Eligible(rows[i]) then [i] else []) + EligibleFrom(rows, i + 1)
  }

  function Unpublished(rows: seq<Row>): seq<EventId> {
    EligibleFrom(rows, 0)
  }

  function Batch(rows: seq<Row>, limit: nat): seq<EventId> {
    var events := Unpublished(rows);
    if |events| <= limit then events else events[..limit]
  }

  function Handle(s: State, e: EventId, o: Outcome): State {
    var log := if o.delivered then s.log + [e] else s.log;
    if !(0 <= e < |s.rows|) || !o.recorded then State(s.rows, log)
    else if o.acknowledged then State(s.rows[e := s.rows[e].(published := true)], log)
    else State(s.rows[e := s.rows[e].(retries := s.rows[e].retries + 1)], log)
  }

  /** The loop over a batch; it stops early when the context is cancelled. */
  function HandleAll(s: State, batch: seq<EventId>, outcomes: seq<Outcome>): State
    decreases |batch|
  {
    if batch == [] || outcomes == [] then s
    else HandleAll(Handle(s, batch[0], outcomes[0]), batch[1..], outcomes[1..])
  }

  function Poll(s: State, limit: nat, outcomes: seq<Outcome>): State {
    HandleAll(s, Batch(s.rows, limit), outcomes)
  }

  class Publisher {
    const batchSize: nat
    var rows: seq<Row>
    var log: seq<EventId>

    function View(): State
      reads this
    {
      State(rows, log)
    }

    constructor (batchSize: nat, rows: seq<Row>)
      ensures View() == State(rows, []) && this.batchSize == batchSize
    {
      this.batchSize, this.rows := batchSize, rows;
      log := [];
    }

    method GetUnpublishedEvents() returns (events: seq<EventId>)
      ensures events == Batch(rows, batchSize)
    {
      events := [];
      var i := |rows|;
      while i > 0
        invariant 0 <= i <= |rows| && events == EligibleFrom(rows, i)
      {
        i := i - 1;
        if Eligible(rows[i]) {
          events := [i] + events;
        }
      }
      if |events| > batchSize {
        events := events[..batchSize];
      }
    }

    method PollAndPublish(outcomes: seq<Outcome>) returns (published: nat, failed: nat)
      modifies this
      ensures View() == Poll(old(View()), batchSize, outcomes)
      ensures var n := |Batch(old(rows), batchSize)|;
              && published + failed == (if n < |outcomes| then n else |outcomes|)
              && published == Acknowledged(outcomes[..published + failed])
    {
      var events := GetUnpublishedEvents();
      published, failed := 0, 0;
      var i := 0;
      while i < |events|
        invariant 0 <= i <= |events| && i <= |outcomes| && published + failed == i
        invariant published == Acknowledged(outcomes[..i])
        invariant HandleAll(View(), events[i..], outcomes[i..]) == Poll(old(View()), batchSize, outcomes)
      {
        if i == |outcomes| {
          return;
        }
        var event, o := events[i], outcomes[i];
        assert outcomes[..i + 1][..i] == outcomes[..i];
        assert events[i..][1..] == events[i + 1..] && outcomes[i..][1..] == outcomes[i + 1..];
        if o.delivered {
          log := log + [event];
        }
        if o.acknowledged {
          published := published + 1;
          if o.recorded {
            MarkPublished(event);
          }
        } else {
          failed := failed + 1;
          if o.recorded {
            RecordFailure(event);
          }
        }
        i := i + 1;
      }
    }

    method MarkPublished(e: EventId)
      modifies this`rows
      ensures rows == if 0 <= e < |old(rows)| then old(rows)[e := old(rows)[e].(published := true)] else old(rows)
    {
      if 0 <= e < |rows| {
        rows := rows[e := rows[e].(published := true)];
      }
    }

    method RecordFailure(e: EventId)
      modifies this`rows
      ensures rows == if 0 <= e < |old(rows)| then old(rows)[e := old(rows)[e].(retries := old(rows)[e].retries + 1)] else old(rows)
    {
      if 0 <= e < |rows| {
        rows := rows[e := rows[e].(retries := rows[e].retries + 1)];
      }
    }
  }

  // ---- What handling an event does ----

  /** The message gets into the log exactly if it was delivered; the row is marked, or its retries counted, exactly
      if that write takes effect; and no other row changes. */
  lemma HandlesExactly(s: State, e: EventId, o: Outcome)
    requires 0 <= e < |s.rows|
    ensures var t := Handle(s, e, o);
            && t.log == (if o.delivered then s.log + [e] else s.log)
            && |t.rows| == |s.rows|
            && t.rows[e].published == (s.rows[e].published || (o.recorded && o.acknowledged))
            && t.rows[e].retries == (if o.recorded && !o.acknowledged then s.rows[e].retries + 1 else s.rows[e].retries)
            && forall k :: 0 <= k < |s.rows| && k != e ==> t.rows[k] == s.rows[k]
  {
  }

  /** The state when the first k events of a batch have been handled. */
  function AfterEvents(s: State, batch: seq<EventId>, outcomes: seq<Outcome>, k: nat): State
    requires k <= |batch| && k <= |outcomes|
  {
    if k == 0 then s else Handle(AfterEvents(s, batch, outcomes, k - 1), batch[k - 1], outcomes[k - 1])
  }

  /** A batch is handled event after event, whatever becomes of each, up to its end or a cancellation. */
  lemma {:induction false} HandlesInTurn(s: State, batch: seq<EventId>, outcomes: seq<Outcome>, k: nat)
    requires k <= |batch| && k <= |outcomes|
    ensures HandleAll(s, batch, outcomes) == HandleAll(AfterEvents(s, batch, outcomes, k), batch[k..], outcomes[k..])
    ensures k == |batch| || k == |outcomes| ==> HandleAll(s, batch, outcomes) == AfterEvents(s, batch, outcomes, k)
  {
    if k == 0 {
      assert batch[0..] == batch && outcomes[0..] == outcomes;
    } else {
      HandlesInTurn(s, batch, outcomes, k - 1);
      assert batch[k - 1..][1..] == batch[k..] && outcomes[k - 1..][1..] == outcomes[k..];
    }
  }

  function Acknowledged(outcomes: seq<Outcome>): nat {
    if outcomes == [] then 0
    else Acknowledged(outcomes[..|outcomes| - 1]) + if outcomes[|outcomes| - 1].acknowledged then 1 else 0
  }

  // ---- Any number of pollers ----

  /** What each poller has fetched and not yet handled. The row locks of the query are gone
      when it returns, so batches of different pollers can overlap. */
  datatype Sys = Sys(state: State, pollers: map<PollerId, seq<EventId>>)

  datatype Step = Emit
                | Fetch(poller: PollerId, limit: nat)
                | Publish(poller: PollerId, outcome: Outcome)
                | Cancel(poller: PollerId)

  predicate Enabled(s: Sys, step: Step) {
    match step
    case Emit => true
    case Fetch(p, _) => p in s.pollers && s.pollers[p] == []
    case Publish(p, o) => p in s.pollers && s.pollers[p] != [] && Honest(o)
    case Cancel(p) => p in s.pollers
  }

  function Next(s: Sys, step: Step): Sys
    requires Enabled(s, step)
  {
    match step
    case Emit => s.(state := s.state.(rows := s.state.rows + [Row(false, 0)]))
    case Fetch(p, limit) => s.(pollers := s.pollers[p := Batch(s.state.rows, limit)])
    case Publish(p, o) => Sys(Handle(s.state, s.pollers[p][0], o), s.pollers[p := s.pollers[p][1..]])
    case Cancel(p) => s.(pollers := s.pollers[p := []])
  }

  predicate Runs(s: Sys, steps: seq<Step>)
    decreases |steps|
  {
    steps == [] || (Enabled(s, steps[0]) && Runs(Next(s, steps[0]), steps[1..]))
  }

  function Run(s: Sys, steps: seq<Step>): Sys
    requires Runs(s, steps)
    decreases |steps|
  {
    if steps == [] then s else Run(Next(s, steps[0]), steps[1..])
  }

  ghost function Holders(pollers: map<PollerId, seq<EventId>>, e: EventId): set<PollerId> {
    set p | p in pollers && e in pollers[p]
  }

  /** Nothing is marked as published that is not in the log. */
  ghost predicate AtLeastOnce(s: State) {
    forall e :: 0 <= e < |s.rows| && s.rows[e].published ==> e in s.log
  }

  predicate NoRepeats(batch: seq<EventId>) {
    forall i, j :: 0 <= i < j < |batch| ==> batch[i] != batch[j]
  }

  /** Each poller that still holds an event can add one to its retries. */
  ghost predicate WithinCap(s: Sys) {
    forall e :: 0 <= e < |s.state.rows| ==>
                  s.state.rows[e].retries + |Holders(s.pollers, e)| <= MAX_RETRIES - 1 + |s.pollers|
  }

  ghost predicate Invariant(s: Sys) {
    && AtLeastOnce(s.state) && WithinCap(s)
    && forall p | p in s.pollers :: NoRepeats(s.pollers[p]) && Within(s.pollers[p], s.state.rows)
  }

  lemma {:induction false} EligibleAreListed(rows: seq<Row>, i: nat, e: EventId)
    requires i <= |rows|
    ensures e in EligibleFrom(rows, i) <==> i <= e < |rows| && Eligible(rows[e])
    decreases |rows| - i
  {
    if i < |rows| {
      var rest := EligibleFrom(rows, i + 1);
      EligibleAreListed(rows, i + 1, e);
      if Eligible(rows[i]) {
        assert e in [i] + rest <==> e == i || e in rest;
      } else {
        assert [] + rest == rest;
      }
    }
  }

  lemma {:induction false} EligibleAreRising(rows: seq<Row>, i: nat)
    requires i <= |rows|
    ensures Rising(EligibleFrom(rows, i))
    decreases |rows| - i
  {
    if i < |rows| {
      var rest := EligibleFrom(rows, i + 1);
      EligibleAreRising(rows, i + 1);
      forall k | 0 <= k < |rest| ensures i < rest[k] {
        EligibleAreListed(rows, i + 1, rest[k]);
      }
      assert EligibleFrom(rows, i) == if Eligible(rows[i]) then [i] + rest else rest;
    }
  }

  lemma EligibleAreInOrder(rows: seq<Row>)
    ensures forall e :: e in Unpublished(rows) <==> 0 <= e < |rows| && Eligible(rows[e])
    ensures Rising(Unpublished(rows))
  {
    forall e ensures e in Unpublished(rows) <==> 0 <= e < |rows| && Eligible(rows[e]) {
      EligibleAreListed(rows, 0, e);
    }
    EligibleAreRising(rows, 0);
  }

  predicate Rising(events: seq<EventId>) {
    forall j, k :: 0 <= j < k < |events| ==> events[j] < events[k]
  }

  /** A poller gets eligible events only, no more than the limit; what it does not get comes after all it got,
      and is left out for the limit alone. */
  lemma FetchesExactly(rows: seq<Row>, limit: nat, e: EventId)
    ensures var batch := Batch(rows, limit);
            && |batch| <= limit && Rising(batch)
            && (e in batch ==> 0 <= e < |rows| && !rows[e].published && rows[e].retries < MAX_RETRIES)
            && (0 <= e < |rows| && !rows[e].published && rows[e].retries < MAX_RETRIES && e !in batch ==>
                  |batch| == limit && forall i :: 0 <= i < |batch| ==> batch[i] < e)
  {
    EligibleAreInOrder(rows);
    var events, batch := Unpublished(rows), Batch(rows, limit);
    forall i | 0 <= i < |batch| ensures batch[i] == events[i] && events[i] in events {
    }
    if e in events && e !in batch {
      var k :| 0 <= k < |events| && events[k] == e;
      if k < |batch| {
        assert batch[k] == e;
      }
    }
  }

  lemma BatchIsEligible(rows: seq<Row>, limit: nat)
    ensures var batch := Batch(rows, limit);
            && NoRepeats(batch) && Within(batch, rows)
            && forall e :: e in batch ==> 0 <= e < |rows| && Eligible(rows[e])
  {
    EligibleAreInOrder(rows);
    var events, batch := Unpublished(rows), Batch(rows, limit);
    forall i | 0 <= i < |batch| ensures batch[i] == events[i] && events[i] in events {
    }
    forall i, j | 0 <= i < j < |batch| ensures batch[i] != batch[j] {
      assert events[i] < events[j];
    }
  }

  predicate Within(batch: seq<EventId>, rows: seq<Row>) {
    forall i :: 0 <= i < |batch| ==> 0 <= batch[i] < |rows|
  }

  lemma HoldersAfter(pollers: map<PollerId, seq<EventId>>, p: PollerId, batch: seq<EventId>, e: EventId)
    requires p in pollers
    ensures |Holders(pollers[p := batch], e)| ==
            |Holders(pollers, e)| + (if e in batch then 1 else 0) - (if e in pollers[p] then 1 else 0)
  {
    var others := Holders(pollers, e) - {p};
    assert Holders(pollers, e) == others + if e in pollers[p] then {p} else {};
    assert Holders(pollers[p := batch], e) == others + if e in batch then {p} else {};
  }

  lemma HoldersArePollers(pollers: map<PollerId, seq<EventId>>, p: PollerId, e: EventId)
    requires p in pollers && e !in pollers[p]
    ensures |Holders(pollers, e)| <= |pollers| - 1
  {
    SubsetIsSmaller(Holders(pollers, e), pollers.Keys - {p});
    assert |pollers.Keys| == |pollers|;
  }

  lemma SubsetIsSmaller(a: set<PollerId>, b: set<PollerId>)
    requires a <= b
    ensures |a| <= |b|
  {
    assert b == a + (b - a);
  }

  lemma SamePollers(pollers: map<PollerId, seq<EventId>>, p: PollerId, batch: seq<EventId>)
    requires p in pollers
    ensures |pollers[p := batch]| == |pollers|
  {
    assert pollers[p := batch].Keys == pollers.Keys;
    assert |pollers.Keys| == |pollers| && |pollers[p := batch].Keys| == |pollers[p := batch]|;
  }

  lemma StepKeepsCap(s: Sys, step: Step, e: EventId)
    requires Invariant(s) && Enabled(s, step) && 0 <= e < |Next(s, step).state.rows|
    ensures var t := Next(s, step);
            t.state.rows[e].retries + |Holders(t.pollers, e)| <= MAX_RETRIES - 1 + |t.pollers|
  {
    match step
    case Emit =>
      if e == |s.state.rows| {
        assert forall p | p in s.pollers :: Within(s.pollers[p], s.state.rows);
        assert Holders(s.pollers, e) == {};
      }
    case Fetch(p, limit) =>
      BatchIsEligible(s.state.rows, limit);
      HoldersAfter(s.pollers, p, Batch(s.state.rows, limit), e);
      HoldersArePollers(s.pollers, p, e);
      SamePollers(s.pollers, p, Batch(s.state.rows, limit));
    case Publish(p, o) =>
      var batch := s.pollers[p];
      assert batch == [batch[0]] + batch[1..];
      assert batch[0] !in batch[1..];
      HoldersAfter(s.pollers, p, batch[1..], e);
      SamePollers(s.pollers, p, batch[1..]);
    case Cancel(p) =>
      HoldersAfter(s.pollers, p, [], e);
      SamePollers(s.pollers, p, []);
  }

  lemma StepKeepsInvariant(s: Sys, step: Step)
    requires Invariant(s) && Enabled(s, step)
    ensures Invariant(Next(s, step))
  {
    var t := Next(s, step);
    StepKeepsBatches(s, step);
    forall e | 0 <= e < |t.state.rows|
      ensures t.state.rows[e].retries + |Holders(t.pollers, e)| <= MAX_RETRIES - 1 + |t.pollers|
    {
      StepKeepsCap(s, step, e);
    }
    if step.Publish? {
      assert s.state.log <= t.state.log;
      forall e | 0 <= e < |t.state.rows| && t.state.rows[e].published ensures e in t.state.log {
        if s.state.rows[e].published {
          assert e in s.state.log;
        }
      }
    }
  }

  lemma StepKeepsBatches(s: Sys, step: Step)
    requires Invariant(s) && Enabled(s, step)
    ensures var t := Next(s, step);
            forall p | p in t.pollers :: NoRepeats(t.pollers[p]) && Within(t.pollers[p], t.state.rows)
  {
    if step.Fetch? {
      BatchIsEligible(s.state.rows, step.limit);
    }
    if step.Publish? {
      var batch := s.pollers[step.poller];
      assert NoRepeats(batch) && Within(batch, s.state.rows);
      assert forall i :: 0 <= i < |batch[1..]| ==> batch[1..][i] == batch[i + 1];
    }
  }

  /** In every interleaving of any number of pollers: whatever is marked as published is in
      the log, and no event is retried more than MAX_RETRIES + (pollers - 1) times. */
  lemma {:induction false} EveryRunKeepsInvariant(s: Sys, steps: seq<Step>)
    requires Invariant(s) && Runs(s, steps)
    ensures var t := Run(s, steps);
            && Invariant(t) && AtLeastOnce(t.state) && t.pollers.Keys == s.pollers.Keys
            && forall e :: 0 <= e < |t.state.rows| ==> t.state.rows[e].retries <= MAX_RETRIES - 1 + |t.pollers|
    decreases |steps|
  {
    if steps != [] {
      StepKeepsInvariant(s, steps[0]);
      EveryRunKeepsInvariant(Next(s, steps[0]), steps[1..]);
    } else {
      forall e | 0 <= e < |s.state.rows| ensures s.state.rows[e].retries <= MAX_RETRIES - 1 + |s.pollers| {
        assert 0 <= |Holders(s.pollers, e)|;
      }
    }
  }

  /** A single poller never exceeds the cap. */
  lemma SinglePollerRespectsCap(p: PollerId, steps: seq<Step>)
    requires Runs(Sys(State([], []), map[p := []]), steps)
    ensures var t := Run(Sys(State([], []), map[p := []]), steps).state;
            AtLeastOnce(t) && forall e :: 0 <= e < |t.rows| ==> t.rows[e].retries <= MAX_RETRIES
  {
    var s := Sys(State([], []), map[p := []]);
    EveryRunKeepsInvariant(s, steps);
    var t := Run(s, steps);
    assert t.pollers.Keys == {p};
    assert |t.pollers| == |t.pollers.Keys| == 1;
  }

  /** A second poller can exceed it: both have fetched the event before its last retry. */
  lemma SecondPollerExceedsCap(p: PollerId, q: PollerId)
    requires p != q
    ensures var s := Sys(State([Row(false, MAX_RETRIES - 1)], []), map[p := [], q := []]);
            var miss := Outcome(false, false, true);
            var steps := [Fetch(p, 1), Fetch(q, 1), Publish(p, miss), Publish(q, miss)];
            Runs(s, steps) && Run(s, steps).state.rows == [Row(false, MAX_RETRIES + 1)]
  {
    var s := Sys(State([Row(false, MAX_RETRIES - 1)], []), map[p := [], q := []]);
    var miss := Outcome(false, false, true);
    var steps := [Fetch(p, 1), Fetch(q, 1), Publish(p, miss), Publish(q, miss)];
    assert EligibleFrom(s.state.rows, 1) == [];
    assert Unpublished(s.state.rows) == [0];
    var s1 := Next(s, steps[0]);
    var s2 := Next(s1, steps[1]);
    var s3 := Next(s2, steps[2]);
    assert s2.pollers[p] == [0] && s2.pollers[q] == [0];
    assert s3.state.rows == [Row(false, MAX_RETRIES)] && s3.pollers[q] == [0];
    assert steps[1..] == [steps[1], steps[2], steps[3]];
    assert steps[1..][1..] == [steps[2], steps[3]];
    assert steps[1..][1..][1..] == [steps[3]];
    assert steps[1..][1..][1..][1..] == [];
    assert Runs(s3, [steps[3]]) && Runs(s2, [steps[2], steps[3]]);
    assert Run(s2, [steps[2], steps[3]]) == Run(s3, [steps[3]]) == Next(s3, steps[3]);
    assert Runs(s1, steps[1..]) && Run(s1, steps[1..]) == Run(s2, steps[1..][1..]);
  }

  // ---- Progress of a single poller ----

  /** How many more failures the eligible events can take together. */
  function Remaining(rows: seq<Row>): nat {
    if rows == [] then 0
    else
      Remaining(rows[..|rows| - 1]) + RetriesLeft(rows[|rows| - 1])
  }

  function RetriesLeft(row: Row): nat {
    if Eligible(row) then MAX_RETRIES - row.retries else 0
  }

  lemma {:induction false} RemainingAfter(rows: seq<Row>, e: EventId, row: Row)
    requires 0 <= e < |rows|
    ensures Remaining(rows[e := row]) == Remaining(rows) - RetriesLeft(rows[e]) + RetriesLeft(row)
  {
    var n := |rows| - 1;
    if e == n {
      assert rows[e := row][..n] == rows[..n];
    } else {
      RemainingAfter(rows[..n], e, row);
      assert rows[e := row][..n] == rows[..n][e := row];
    }
  }

  predicate AllRecorded(outcomes: seq<Outcome>) {
    forall i :: 0 <= i < |outcomes| ==> outcomes[i].recorded
  }

  lemma HandleUsesUp(s: State, e: EventId, o: Outcome)
    requires 0 <= e < |s.rows| && o.recorded
    ensures Remaining(Handle(s, e, o).rows) <= Remaining(s.rows)
    ensures Eligible(s.rows[e]) ==> Remaining(Handle(s, e, o).rows) < Remaining(s.rows)
  {
    RemainingAfter(s.rows, e, Handle(s, e, o).rows[e]);
  }

  lemma {:induction false} HandleAllUsesUp(s: State, batch: seq<EventId>, outcomes: seq<Outcome>)
    requires AllRecorded(outcomes) && Within(batch, s.rows)
    ensures var t := HandleAll(s, batch, outcomes);
            && Remaining(t.rows) <= Remaining(s.rows)
            && (batch != [] && outcomes != [] && Eligible(s.rows[batch[0]]) ==> Remaining(t.rows) < Remaining(s.rows))
    decreases |batch|
  {
    if batch != [] && outcomes != [] {
      assert outcomes[0].recorded && 0 <= batch[0] < |s.rows|;
      HandleUsesUp(s, batch[0], outcomes[0]);
      HandleAllUsesUp(Handle(s, batch[0], outcomes[0]), batch[1..], outcomes[1..]);
    }
  }

  /** A poll that gets to at least one event. */
  datatype Turn = Turn(limit: nat, outcomes: seq<Outcome>)

  predicate Useful(t: Turn) {
    0 < t.limit && t.outcomes != [] && AllRecorded(t.outcomes)
  }

  function Polls(s: State, turns: seq<Turn>): State
    decreases |turns|
  {
    if turns == [] then s else Polls(Poll(s, turns[0].limit, turns[0].outcomes), turns[1..])
  }

  lemma {:induction false} NoneEligible(rows: seq<Row>)
    requires Remaining(rows) == 0
    ensures forall e :: 0 <= e < |rows| ==> !Eligible(rows[e])
  {
    if rows != [] {
      NoneEligible(rows[..|rows| - 1]);
      assert forall e :: 0 <= e < |rows| - 1 ==> rows[..|rows| - 1][e] == rows[e];
    }
  }

  /** When every write to the rows takes effect, as many polls as there are retries left
      bring every event to its end, whatever Kafka does: published, or out of retries. */
  lemma {:induction false} PollingDrains(s: State, turns: seq<Turn>)
    requires forall i :: 0 <= i < |turns| ==> Useful(turns[i])
    requires Remaining(s.rows) <= |turns|
    ensures forall e :: 0 <= e < |Polls(s, turns).rows| ==>
                          Polls(s, turns).rows[e].published || MAX_RETRIES <= Polls(s, turns).rows[e].retries
    decreases |turns|
  {
    if turns == [] {
      NoneEligible(s.rows);
    } else {
      assert Useful(turns[0]);
      BatchIsEligible(s.rows, turns[0].limit);
      EligibleAreInOrder(s.rows);
      HandleAllUsesUp(s, Batch(s.rows, turns[0].limit), turns[0].outcomes);
      var batch := Batch(s.rows, turns[0].limit);
      if batch == [] {
        assert forall e :: 0 <= e < |s.rows| ==> e !in Unpublished(s.rows);
        NothingRemains(s.rows);
      } else {
        assert batch[0] in batch;
      }
      PollingDrains(Poll(s, turns[0].limit, turns[0].outcomes), turns[1..]);
    }
  }

  lemma {:induction false} NothingRemains(rows: seq<Row>)
    requires forall e :: 0 <= e < |rows| ==> !Eligible(rows[e])
    ensures Remaining(rows) == 0
  {
    if rows != [] {
      NothingRemains(rows[..|rows| - 1]);
    }
  }

  // ---- Without failures ----

  predicate AllWell(outcomes: seq<Outcome>) {
    forall i :: 0 <= i < |outcomes| ==> outcomes[i] == Outcome(true, true, true)
  }

  /** A batch that meets no failure is in the log in its order, and marked as published. */
  lemma {:induction false} BatchIsPublished(s: State, batch: seq<EventId>, outcomes: seq<Outcome>)
    requires AllWell(outcomes) && |batch| <= |outcomes| && Within(batch, s.rows)
    ensures var t := HandleAll(s, batch, outcomes);
            && t.log == s.log + batch && |t.rows| == |s.rows|
            && forall e :: 0 <= e < |s.rows| ==>
                             t.rows[e] == if e in batch then s.rows[e].(published := true) else s.rows[e]
    decreases |batch|
  {
    if batch == [] {
      assert s.log + [] == s.log;
    } else {
      assert 0 <= batch[0] < |s.rows| && outcomes[0] == Outcome(true, true, true);
      var t := Handle(s, batch[0], outcomes[0]);
      assert forall e :: e in batch <==> e == batch[0] || e in batch[1..];
      BatchIsPublished(t, batch[1..], outcomes[1..]);
      assert (s.log + [batch[0]]) + batch[1..] == s.log + batch;
    }
  }

  /** Without the first k eligible events the others are eligible, in the same order. */
  lemma {:induction false} RestIsEligible(before: seq<Row>, after: seq<Row>, i: nat, k: nat)
    requires i <= |before| == |after| && k <= |EligibleFrom(before, i)|
    requires forall e :: i <= e < |before| ==>
                           (Eligible(after[e]) <==> Eligible(before[e]) && e !in EligibleFrom(before, i)[..k])
    ensures EligibleFrom(after, i) == EligibleFrom(before, i)[k..]
    decreases |before| - i
  {
    if i < |before| {
      var all, rest := EligibleFrom(before, i), EligibleFrom(before, i + 1);
      if !Eligible(before[i]) {
        assert all == rest;
        RestIsEligible(before, after, i + 1, k);
      } else if k == 0 {
        assert all[..0] == [] && rest[..0] == [];
        RestIsEligible(before, after, i + 1, 0);
        assert all[0..] == [i] + rest[0..];
      } else {
        TakeFirst(i, rest, k);
        assert i in all[..k];
        RestIsEligible(before, after, i + 1, k - 1);
      }
    }
  }

  lemma TakeFirst(first: EventId, rest: seq<EventId>, k: nat)
    requires 0 < k <= |rest| + 1
    ensures ([first] + rest)[k..] == rest[k - 1..] && first in ([first] + rest)[..k]
    ensures forall e :: e in ([first] + rest)[..k] <==> e == first || e in rest[..k - 1]
  {
    assert ([first] + rest)[..k] == [first] + rest[..k - 1];
  }

  /** Without failures any sequence of polls, whatever their batch sizes, publishes the
      unpublished events in the order of their creation, and each of them once: what is in
      the log and what is left to do together are always the same list. */
  lemma {:induction false} PublishesInOrder(s: State, turns: seq<Turn>)
    requires forall i :: 0 <= i < |turns| ==> 0 < turns[i].limit <= |turns[i].outcomes| && AllWell(turns[i].outcomes)
    ensures var t := Polls(s, turns);
            && t.log + Unpublished(t.rows) == s.log + Unpublished(s.rows)
            && |Unpublished(t.rows)| <= Max0(|Unpublished(s.rows)| - |turns|)
            && (|Unpublished(s.rows)| <= |turns| ==> t.log == s.log + Unpublished(s.rows))
    decreases |turns|
  {
    if turns != [] {
      var events := Unpublished(s.rows);
      PollPublishesBatch(s, turns[0].limit, turns[0].outcomes);
      PublishesInOrder(Poll(s, turns[0].limit, turns[0].outcomes), turns[1..]);
    }
  }

  lemma PollPublishesBatch(s: State, limit: nat, outcomes: seq<Outcome>)
    requires limit <= |outcomes| && AllWell(outcomes)
    ensures var (t, batch) := (Poll(s, limit, outcomes), Batch(s.rows, limit));
            && Unpublished(s.rows) == batch + Unpublished(t.rows)
            && t.log == s.log + batch
            && t.log + Unpublished(t.rows) == s.log + Unpublished(s.rows)
  {
    hide HandleAll, EligibleFrom;
    var events, batch := Unpublished(s.rows), Batch(s.rows, limit);
    var t := Poll(s, limit, outcomes);
    BatchIsEligible(s.rows, limit);
    BatchIsPublished(s, batch, outcomes);
    assert batch == events[..|batch|];
    RestIsEligible(s.rows, t.rows, 0, |batch|);
    assert events == batch + events[|batch|..];
    assert (s.log + batch) + events[|batch|..] == s.log + events;
  }

  function Max0(x: int): int {
    if x < 0 then 0 else x
  }
}
