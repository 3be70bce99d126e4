/** The circuit breaker. A call holds the lock when it begins and again when it ends;
    in between other calls begin and end, so a run is a sequence of such steps. */
module CircuitBreaker {

  datatype State = Closed | Open | HalfOpen

  datatype Config = Config(failureThreshold: int, resetTimeout: int, successThreshold: int)

  predicate ValidConfig(c: Config) {
    1 <= c.failureThreshold && 1 <= c.resetTimeout && 1 <= c.successThreshold
  }

  datatype Breaker = Breaker(state: State, fails: int, succ: int, probeInFlight: bool, lastChange: int,
                             totalRequests: int, totalFailures: int)

  /** What Execute does with a request. */
  datatype Verdict = RunClosed | RunProbe | RejectOpen | RejectProbing

  // ---- The lock sections ----

  function Transition(b: Breaker, to: State, now: int): Breaker {
    if b.state == to then b
    else
      var c := b.(state := to, lastChange := now);
      if to.Open? then c.(probeInFlight := false, succ := 0) else c
  }

  function Begin(b: Breaker, cfg: Config, now: int): (Breaker, Verdict) {
    var c := b.(totalRequests := b.totalRequests + 1);
    match b.state
    case Closed => (c, RunClosed)
    case Open =>
      if now - b.lastChange >= cfg.resetTimeout
      then (Transition(c, HalfOpen, now).(probeInFlight := true), RunProbe)
      else (c, RejectOpen)
    case HalfOpen =>
      if b.probeInFlight then (c, RejectProbing) else (c.(probeInFlight := true), RunProbe)
  }

  function EndClosed(b: Breaker, cfg: Config, failed: bool, now: int): Breaker {
    if failed then
      var c := b.(fails := b.fails + 1, totalFailures := b.totalFailures + 1);
      if c.fails >= cfg.failureThreshold then Transition(c, Open, now) else c
    else
      b.(fails := 0)
  }

  function EndProbe(b: Breaker, cfg: Config, failed: bool, now: int): Breaker {
    var c := b.(probeInFlight := false);
    if failed then
      Transition(c.(fails := c.fails + 1, totalFailures := c.totalFailures + 1, succ := 0), Open, now)
    else if c.succ + 1 >= cfg.successThreshold then
      Transition(c.(fails := 0, succ := 0), Closed, now)
    else
      c.(succ := c.succ + 1)
  }

  function Poll(b: Breaker, cfg: Config, now: int): Breaker {
    if b.state.Open? && now - b.lastChange >= cfg.resetTimeout then Transition(b, HalfOpen, now) else b
  }

  class CircuitBreaker {
    const config: Config
    var state: State
    var consecutiveFails: int
    var consecutiveSucc: int
    var probeInFlight: bool
    var lastStateChange: int
    var totalRequests: int
    var totalFailures: int

    function View(): Breaker
      reads this
    {
      Breaker(state, consecutiveFails, consecutiveSucc, probeInFlight, lastStateChange, totalRequests, totalFailures)
    }

    constructor (config: Config, now: int)
      ensures View() == Breaker(Closed, 0, 0, false, now, 0, 0) && this.config == config
    {
      this.config := config;
      state, consecutiveFails, consecutiveSucc := Closed, 0, 0;
      probeInFlight, lastStateChange, totalRequests, totalFailures := false, now, 0, 0;
    }

    method ChangeState(newState: State, now: int)
      modifies this
      ensures View() == Transition(old(View()), newState, now)
    {
      if state == newState {
        return;
      }
      state := newState;
      lastStateChange := now;
      if newState == Open {
        probeInFlight := false;
        consecutiveSucc := 0;
      }
    }

    /** Execute up to the call. */
    method Start(now: int) returns (verdict: Verdict)
      modifies this
      ensures (View(), verdict) == Begin(old(View()), config, now)
    {
      totalRequests := totalRequests + 1;
      match state
      case Closed =>
        return RunClosed;
      case Open =>
        if now - lastStateChange >= config.resetTimeout {
          ChangeState(HalfOpen, now);
          probeInFlight := true;
          return RunProbe;
        }
        return RejectOpen;
      case HalfOpen =>
        if probeInFlight {
          return RejectProbing;
        }
        probeInFlight := true;
        return RunProbe;
    }

    /** executeClosed after the call. */
    method FinishClosed(failed: bool, now: int)
      modifies this
      ensures View() == EndClosed(old(View()), config, failed, now)
    {
      if failed {
        consecutiveFails := consecutiveFails + 1;
        totalFailures := totalFailures + 1;
        if consecutiveFails >= config.failureThreshold {
          ChangeState(Open, now);
        }
        return;
      }
      consecutiveFails := 0;
    }

    /** executeProbe after the call. */
    method FinishProbe(failed: bool, now: int)
      modifies this
      ensures View() == EndProbe(old(View()), config, failed, now)
    {
      probeInFlight := false;
      if failed {
        consecutiveFails := consecutiveFails + 1;
        totalFailures := totalFailures + 1;
        consecutiveSucc := 0;
        ChangeState(Open, now);
        return;
      }
      consecutiveSucc := consecutiveSucc + 1;
      if consecutiveSucc >= config.successThreshold {
        consecutiveFails := 0;
        consecutiveSucc := 0;
        ChangeState(Closed, now);
      }
    }

    method GetState(now: int) returns (s: State)
      modifies this
      ensures View() == Poll(old(View()), config, now) && s == state
    {
      if state == Open && now - lastStateChange >= config.resetTimeout {
        ChangeState(HalfOpen, now);
      }
      return state;
    }
  }

  // ---- What each lock section does ----

  /** A closed breaker lets a call through, an open one not before its reset timeout, and a half-open one
      (or one that becomes half-open by this very call) only while no probe is under way. */
  lemma BeginsExactly(b: Breaker, cfg: Config, now: int)
    ensures var (c, verdict) := Begin(b, cfg, now);
            var due := b.state == Open && b.lastChange + cfg.resetTimeout <= now;
            && (verdict == RunClosed <==> b.state == Closed)
            && (verdict == RejectOpen <==> b.state == Open && !due)
            && (verdict == RejectProbing <==> b.state == HalfOpen && b.probeInFlight)
            && (verdict == RunProbe <==> due || (b.state == HalfOpen && !b.probeInFlight))
            && c.state == (if due then HalfOpen else b.state)
            && c.lastChange == (if due then now else b.lastChange)
            && c.probeInFlight == (b.probeInFlight || verdict == RunProbe)
            && c.totalRequests == b.totalRequests + 1
            && (c.fails, c.succ, c.totalFailures) == (b.fails, b.succ, b.totalFailures)
  {
  }

  /** The end of a call admitted while closed: a success forgets the failures, and a failure that completes
      failureThreshold opens the breaker, whatever state it is in by then. */
  lemma ClosedEndsExactly(b: Breaker, cfg: Config, failed: bool, now: int)
    ensures var c := EndClosed(b, cfg, failed, now);
            var opens := failed && cfg.failureThreshold <= b.fails + 1 && b.state != Open;
            && c.fails == (if failed then b.fails + 1 else 0)
            && c.totalFailures == (if failed then b.totalFailures + 1 else b.totalFailures)
            && c.totalRequests == b.totalRequests
            && c.state == (if opens then Open else b.state)
            && c.lastChange == (if opens then now else b.lastChange)
            && c.probeInFlight == (b.probeInFlight && !opens)
            && c.succ == (if opens then 0 else b.succ)
  {
  }

  /** The end of a probe: a failure opens the breaker, the success that completes successThreshold closes it,
      and any other success is counted; in each case no probe is under way any more. */
  lemma ProbeEndsExactly(b: Breaker, cfg: Config, failed: bool, now: int)
    ensures var c := EndProbe(b, cfg, failed, now);
            var closes := !failed && cfg.successThreshold <= b.succ + 1;
            var changes := (failed && b.state != Open) || (closes && b.state != Closed);
            && !c.probeInFlight
            && c.state == (if failed then Open else if closes then Closed else b.state)
            && c.lastChange == (if changes then now else b.lastChange)
            && c.fails == (if failed then b.fails + 1 else if closes then 0 else b.fails)
            && c.succ == (if failed || closes then 0 else b.succ + 1)
            && c.totalFailures == (if failed then b.totalFailures + 1 else b.totalFailures)
            && c.totalRequests == b.totalRequests
  {
  }

  /** Asking for the state makes a change to half-open that is due, and nothing else. */
  lemma PollsExactly(b: Breaker, cfg: Config, now: int)
    ensures var c := Poll(b, cfg, now);
            if b.state == Open && b.lastChange + cfg.resetTimeout <= now
            then c.state == HalfOpen && c.lastChange == now && c == Breaker(HalfOpen, b.fails, b.succ, b.probeInFlight, now, b.totalRequests, b.totalFailures)
            else c == b
  {
  }

  // ---- Runs ----

  datatype Kind = Normal | Probe

  /** The breaker and the calls that have begun and not ended. */
  datatype Sys = Sys(breaker: Breaker, calls: map<int, Kind>)

  datatype Step = Call(id: int, now: int)
                | Return(id: int, failed: bool, now: int)
                | GetState(now: int)

  predicate Enabled(s: Sys, step: Step) {
    match step
    case Call(id, _) => id !in s.calls
    case Return(id, _, _) => id in s.calls
    case GetState(_) => true
  }

  function Next(s: Sys, cfg: Config, step: Step): Sys
    requires Enabled(s, step)
  {
    match step
    case Call(id, now) =>
      var (b, v) := Begin(s.breaker, cfg, now);
      Sys(b, if v.RunClosed? then s.calls[id := Normal] else if v.RunProbe? then s.calls[id := Probe] else s.calls)
    case Return(id, failed, now) =>
      var b := if s.calls[id].Normal? then EndClosed(s.breaker, cfg, failed, now) else EndProbe(s.breaker, cfg, failed, now);
      Sys(b, s.calls - {id})
    case GetState(now) => s.(breaker := Poll(s.breaker, cfg, now))
  }

  /** The steps can be taken one after the other. */
  predicate Runs(s: Sys, cfg: Config, steps: seq<Step>)
    decreases |steps|
  {
    steps == [] || (Enabled(s, steps[0]) && Runs(Next(s, cfg, steps[0]), cfg, steps[1..]))
  }

  function Run(s: Sys, cfg: Config, steps: seq<Step>): Sys
    requires Runs(s, cfg, steps)
    decreases |steps|
  {
    if steps == [] then s else Run(Next(s, cfg, steps[0]), cfg, steps[1..])
  }

  function Fresh(now: int): Sys {
    Sys(Breaker(Closed, 0, 0, false, now, 0, 0), map[])
  }

  ghost function ProbesOf(calls: map<int, Kind>): set<int> {
    set id | id in calls && calls[id].Probe?
  }

  ghost function Probes(s: Sys): int {
    |ProbesOf(s.calls)|
  }

  function Flag(s: Sys): int {
    if s.breaker.probeInFlight then 1 else 0
  }

  ghost predicate Invariant(s: Sys, cfg: Config) {
    SoundBreaker(s.breaker, cfg) && Flag(s) <= Probes(s)
  }

  /** A call admitted while closed fails after the breaker went half-open and let a probe
      through: the breaker opens again, and the probe is no longer accounted for. */
  predicate OrphansProbe(s: Sys, cfg: Config, step: Step) {
    && step.Return? && step.failed && step.id in s.calls && s.calls[step.id].Normal?
    && s.breaker.state.HalfOpen? && s.breaker.probeInFlight && s.breaker.fails + 1 >= cfg.failureThreshold
  }

  /** An unaccounted probe ends while no other probe is accounted for. */
  predicate EndsOrphan(s: Sys, step: Step) {
    step.Return? && step.id in s.calls && s.calls[step.id].Probe? && !s.breaker.probeInFlight
  }

  function OrphaningSteps(s: Sys, cfg: Config, steps: seq<Step>): nat
    requires Runs(s, cfg, steps)
    decreases |steps|
  {
    if steps == [] then 0
    else (if OrphansProbe(s, cfg, steps[0]) then 1 else 0) + OrphaningSteps(Next(s, cfg, steps[0]), cfg, steps[1..])
  }

  function OrphanEnds(s: Sys, cfg: Config, steps: seq<Step>): nat
    requires Runs(s, cfg, steps)
    decreases |steps|
  {
    if steps == [] then 0
    else (if EndsOrphan(s, steps[0]) then 1 else 0) + OrphanEnds(Next(s, cfg, steps[0]), cfg, steps[1..])
  }

  lemma ProbesGrow(calls: map<int, Kind>, id: int, kind: Kind)
    requires id !in calls
    ensures |ProbesOf(calls[id := kind])| == |ProbesOf(calls)| + if kind.Probe? then 1 else 0
  {
    if kind.Probe? {
      assert ProbesOf(calls[id := kind]) == ProbesOf(calls) + {id};
    } else {
      assert ProbesOf(calls[id := kind]) == ProbesOf(calls);
    }
  }

  lemma ProbesShrink(calls: map<int, Kind>, id: int)
    requires id in calls
    ensures |ProbesOf(calls - {id})| == |ProbesOf(calls)| - if calls[id].Probe? then 1 else 0
  {
    assert (calls - {id})[id := calls[id]] == calls;
    ProbesGrow(calls - {id}, id, calls[id]);
  }

  /** The part of the invariant that concerns the breaker alone. */
  predicate SoundBreaker(b: Breaker, cfg: Config) {
    && 0 <= b.fails && (b.state.Closed? ==> b.fails < cfg.failureThreshold)
    && 0 <= b.succ < cfg.successThreshold
    && (b.probeInFlight ==> b.state.HalfOpen?)
  }

  /** One step keeps the invariant and changes the number of unaccounted probes exactly
      as its kind says. */
  lemma StepKeepsInvariant(s: Sys, cfg: Config, step: Step)
    requires ValidConfig(cfg) && Invariant(s, cfg) && Enabled(s, step)
    ensures var t := Next(s, cfg, step);
            && Invariant(t, cfg)
            && Probes(t) - Flag(t) == Probes(s) - Flag(s)
                                      + (if OrphansProbe(s, cfg, step) then 1 else 0)
                                      - (if EndsOrphan(s, step) then 1 else 0)
  {
    match step
    case Call(id, now) =>
      var v := Begin(s.breaker, cfg, now).1;
      ProbesGrow(s.calls, id, if v.RunClosed? then Normal else Probe);
    case Return(id, failed, now) =>
      ProbesShrink(s.calls, id);
      if s.calls[id].Normal? {
        ClosedEndIsSound(s.breaker, cfg, failed, now);
      } else {
        ProbeEndIsSound(s.breaker, cfg, failed, now);
      }
    case GetState(_) =>
  }

  lemma ClosedEndIsSound(b: Breaker, cfg: Config, failed: bool, now: int)
    requires ValidConfig(cfg) && SoundBreaker(b, cfg)
    ensures var c := EndClosed(b, cfg, failed, now);
            && SoundBreaker(c, cfg)
            && (c.probeInFlight <==>
                b.probeInFlight && !(failed && b.state.HalfOpen? && b.fails + 1 >= cfg.failureThreshold))
  {
  }

  lemma ProbeEndIsSound(b: Breaker, cfg: Config, failed: bool, now: int)
    requires ValidConfig(cfg) && SoundBreaker(b, cfg)
    ensures var c := EndProbe(b, cfg, failed, now);
            SoundBreaker(c, cfg) && !c.probeInFlight
  {
  }

  /** Over every run: the invariant holds at the end, and the running probes are the one
      that probeInFlight stands for plus those orphaned and not yet ended. */
  lemma {:induction false} RunKeepsInvariant(s: Sys, cfg: Config, steps: seq<Step>)
    requires ValidConfig(cfg) && Invariant(s, cfg) && Runs(s, cfg, steps)
    ensures var t := Run(s, cfg, steps);
            && Invariant(t, cfg)
            && Probes(t) - Flag(t) == Probes(s) - Flag(s) + OrphaningSteps(s, cfg, steps) - OrphanEnds(s, cfg, steps)
    decreases |steps|
  {
    if steps != [] {
      StepKeepsInvariant(s, cfg, steps[0]);
      RunKeepsInvariant(Next(s, cfg, steps[0]), cfg, steps[1..]);
    }
  }

  function CallsIn(steps: seq<Step>): nat
    decreases |steps|
  {
    if steps == [] then 0 else (if steps[0].Call? then 1 else 0) + CallsIn(steps[1..])
  }

  function FailuresIn(steps: seq<Step>): nat
    decreases |steps|
  {
    if steps == [] then 0 else (if steps[0].Return? && steps[0].failed then 1 else 0) + FailuresIn(steps[1..])
  }

  /** The totals count every request, rejected or not, and every failed call. */
  lemma {:induction false} TotalsAreExact(s: Sys, cfg: Config, steps: seq<Step>)
    requires Runs(s, cfg, steps)
    ensures var b := Run(s, cfg, steps).breaker;
            && b.totalRequests == s.breaker.totalRequests + CallsIn(steps)
            && b.totalFailures == s.breaker.totalFailures + FailuresIn(steps)
    decreases |steps|
  {
    if steps != [] {
      TotalsAreExact(Next(s, cfg, steps[0]), cfg, steps[1..]);
    }
  }

  /** From a new breaker: running probes <= (probeInFlight ? 1 : 0) + orphaning steps. If no
      step orphans a probe there is never more than one, and probeInFlight says whether. */
  lemma ProbesAreBounded(now: int, cfg: Config, steps: seq<Step>)
    requires ValidConfig(cfg) && Runs(Fresh(now), cfg, steps)
    ensures var t := Run(Fresh(now), cfg, steps);
            && Invariant(t, cfg)
            && Probes(t) <= Flag(t) + OrphaningSteps(Fresh(now), cfg, steps)
            && (OrphaningSteps(Fresh(now), cfg, steps) == 0 ==> Probes(t) == Flag(t))
  {
    assert ProbesOf(map[]) == {};
    RunKeepsInvariant(Fresh(now), cfg, steps);
  }

  /** An orphaning step does let a second probe run, one reset timeout later. */
  lemma OrphanAllowsSecondProbe(s: Sys, cfg: Config, straggler: int, id: int, now: int)
    requires ValidConfig(cfg) && Invariant(s, cfg) && id !in s.calls
    requires OrphansProbe(s, cfg, Return(straggler, true, now))
    ensures var steps := [Return(straggler, true, now), Call(id, now + cfg.resetTimeout)];
            Runs(s, cfg, steps) && Probes(Run(s, cfg, steps)) == Probes(s) + 1 >= 2
  {
    var first, second := Return(straggler, true, now), Call(id, now + cfg.resetTimeout);
    var steps := [first, second];
    assert steps[1..] == [second] && [second][1..] == [];
    var t := Next(s, cfg, first);
    StepKeepsInvariant(s, cfg, first);
    StepKeepsInvariant(t, cfg, second);
    assert Runs(Next(t, cfg, second), cfg, []);
    assert Runs(t, cfg, [second]);
    assert Run(t, cfg, [second]) == Next(t, cfg, second);
  }

  // ---- Counting in a row ----

  /** Counting on from count, the marks reach the threshold by trues in a row. */
  predicate Reaches(count: int, marks: seq<bool>, threshold: int)
    decreases |marks|
  {
    marks != [] &&
    if marks[0] then threshold <= count + 1 || Reaches(count + 1, marks[1..], threshold)
    else Reaches(0, marks[1..], threshold)
  }

  /** threshold trues in a row end at position i. */
  predicate Streak(marks: seq<bool>, i: int, threshold: int) {
    threshold <= i <= |marks| && forall k :: i - threshold <= k < i ==> 0 <= k && marks[k]
  }

  /** A count that reaches the threshold: either some threshold marks in a row are true, or so many
      at the beginning that they complete what had been counted before. */
  lemma {:induction false} ReachesByStreak(count: nat, marks: seq<bool>, threshold: int)
    requires count < threshold
    ensures Reaches(count, marks, threshold) <==>
            Streak(marks, threshold - count, threshold - count) || exists i :: Streak(marks, i, threshold)
    decreases |marks|
  {
    if marks != [] {
      var rest := marks[1..];
      assert forall k :: 0 <= k < |rest| ==> rest[k] == marks[k + 1];
      if marks[0] && count + 1 < threshold {
        ReachesByStreak(count + 1, rest, threshold);
      } else if !marks[0] {
        ReachesByStreak(0, rest, threshold);
      }
      StreaksShift(marks, threshold);
      var n := threshold - count;
      if marks[0] && count + 1 < threshold {
        assert Streak(marks, n, n) <==> Streak(rest, n - 1, n - 1);
        assert Streak(marks, threshold, threshold) ==> Streak(marks, n, n);
      } else if marks[0] {
        assert Streak(marks, 1, 1);
      } else {
        assert !Streak(marks, n, n) && !Streak(marks, threshold, threshold);
        assert Streak(rest, threshold, threshold) ==> exists i :: Streak(rest, i, threshold);
      }
    }
  }

  lemma StreaksShift(marks: seq<bool>, threshold: int)
    requires marks != [] && 0 < threshold
    ensures (exists i :: Streak(marks, i, threshold)) <==>
            Streak(marks, threshold, threshold) || exists i :: Streak(marks[1..], i, threshold)
  {
    var rest := marks[1..];
    assert forall k :: 0 <= k < |rest| ==> rest[k] == marks[k + 1];
    if i :| Streak(marks, i, threshold) && i != threshold {
      forall k | i - 1 - threshold <= k < i - 1 ensures 0 <= k && rest[k] {
        assert marks[k + 1];
      }
      assert Streak(rest, i - 1, threshold);
    }
    if i :| Streak(rest, i, threshold) {
      forall k | i + 1 - threshold <= k < i + 1 ensures 0 <= k && marks[k] {
        assert rest[k - 1];
      }
      assert Streak(marks, i + 1, threshold);
    }
  }

  // ---- How long the breaker stays in a state ----

  /** The breaker is in the state before, between and after the steps. */
  predicate Stays(state: State, s: Sys, cfg: Config, steps: seq<Step>)
    requires Runs(s, cfg, steps)
    decreases |steps|
  {
    s.breaker.state == state && (steps == [] || Stays(state, Next(s, cfg, steps[0]), cfg, steps[1..]))
  }

  predicate Ends(s: Sys, step: Step, kind: Kind) {
    step.Return? && step.id in s.calls && s.calls[step.id] == kind
  }

  /** For each probe that ends, left over or not: did it succeed? */
  function ProbeSuccesses(s: Sys, cfg: Config, steps: seq<Step>): seq<bool>
    requires Runs(s, cfg, steps)
    decreases |steps|
  {
    if steps == [] then []
    else (if Ends(s, steps[0], Probe) then [!steps[0].failed] else []) + ProbeSuccesses(Next(s, cfg, steps[0]), cfg, steps[1..])
  }

  /** For each call admitted while closed that ends: did it fail? */
  function NormalFailures(s: Sys, cfg: Config, steps: seq<Step>): seq<bool>
    requires Runs(s, cfg, steps)
    decreases |steps|
  {
    if steps == [] then []
    else (if Ends(s, steps[0], Normal) then [steps[0].failed] else []) + NormalFailures(Next(s, cfg, steps[0]), cfg, steps[1..])
  }

  /** All steps happen before the given time. */
  predicate Before(steps: seq<Step>, deadline: int) {
    forall i :: 0 <= i < |steps| ==> steps[i].now < deadline
  }

  lemma OpenStep(s: Sys, cfg: Config, step: Step)
    requires s.breaker.state.Open? && Enabled(s, step) && step.now < s.breaker.lastChange + cfg.resetTimeout
    ensures var t := Next(s, cfg, step);
            && (t.breaker.state.Open? <==>
                !(Ends(s, step, Probe) && !step.failed && cfg.successThreshold <= s.breaker.succ + 1))
            && (t.breaker.state.Open? ==>
                  && t.breaker.lastChange == s.breaker.lastChange && t.calls.Keys <= s.calls.Keys
                  && t.breaker.succ == if !Ends(s, step, Probe) then s.breaker.succ
                                       else if step.failed then 0 else s.breaker.succ + 1)
  {
  }

  lemma HalfOpenStep(s: Sys, cfg: Config, step: Step)
    requires s.breaker.state.HalfOpen? && Enabled(s, step)
    ensures var t := Next(s, cfg, step);
            && (t.breaker.state.HalfOpen? <==>
                && !(Ends(s, step, Probe) && (step.failed || cfg.successThreshold <= s.breaker.succ + 1))
                && !(Ends(s, step, Normal) && step.failed && cfg.failureThreshold <= s.breaker.fails + 1))
            && (t.breaker.state.HalfOpen? ==>
                  && t.breaker.succ == s.breaker.succ + (if Ends(s, step, Probe) then 1 else 0)
                  && t.breaker.fails == if !Ends(s, step, Normal) then s.breaker.fails
                                        else if step.failed then s.breaker.fails + 1 else 0)
  {
  }

  /** Until the reset timeout an open breaker stays open, and lets nothing through, exactly as long
      as the probes left over from before do not bring successThreshold successes in a row; calls
      admitted while closed have no influence. */
  lemma {:induction false} StaysOpenExactlyWhen(s: Sys, cfg: Config, steps: seq<Step>)
    requires s.breaker.state.Open? && Runs(s, cfg, steps)
    requires Before(steps, s.breaker.lastChange + cfg.resetTimeout)
    ensures Stays(Open, s, cfg, steps) <==>
            !Reaches(s.breaker.succ, ProbeSuccesses(s, cfg, steps), cfg.successThreshold)
    ensures Stays(Open, s, cfg, steps) ==>
              var t := Run(s, cfg, steps);
              t.breaker.lastChange == s.breaker.lastChange && t.calls.Keys <= s.calls.Keys
    decreases |steps|
  {
    if steps != [] {
      var (t, rest) := (Next(s, cfg, steps[0]), steps[1..]);
      assert steps[0].now < s.breaker.lastChange + cfg.resetTimeout;
      MarksStep(s, cfg, steps);
      OpenStep(s, cfg, steps[0]);
      if t.breaker.state.Open? {
        StaysOpenExactlyWhen(t, cfg, rest);
      }
    }
  }

  lemma MarksStep(s: Sys, cfg: Config, steps: seq<Step>)
    requires steps != [] && Runs(s, cfg, steps)
    ensures var (t, rest) := (Next(s, cfg, steps[0]), steps[1..]);
            && (Ends(s, steps[0], Probe) ==>
                  && ProbeSuccesses(s, cfg, steps)[0] == !steps[0].failed
                  && ProbeSuccesses(s, cfg, steps)[1..] == ProbeSuccesses(t, cfg, rest))
            && (!Ends(s, steps[0], Probe) ==> ProbeSuccesses(s, cfg, steps) == ProbeSuccesses(t, cfg, rest))
            && (Ends(s, steps[0], Normal) ==>
                  && NormalFailures(s, cfg, steps)[0] == steps[0].failed
                  && NormalFailures(s, cfg, steps)[1..] == NormalFailures(t, cfg, rest))
            && (!Ends(s, steps[0], Normal) ==> NormalFailures(s, cfg, steps) == NormalFailures(t, cfg, rest))
  {
  }

  /** A left-over probe can close an open breaker before its reset timeout: two calls begin, one
      fails and opens, a probe begins, the other call opens again, and the probe succeeds. */
  lemma LeftOverProbeClosesEarly()
    ensures var cfg := Config(1, 10, 1);
            var steps := [Call(1, 0), Call(2, 0), Return(1, true, 0), Call(3, 10), Return(2, true, 10), Return(3, false, 11)];
            && Runs(Fresh(0), cfg, steps[..5]) && Run(Fresh(0), cfg, steps[..5]).breaker.state.Open?
            && Run(Fresh(0), cfg, steps[..5]).breaker.lastChange == 10
            && Runs(Fresh(0), cfg, steps) && Run(Fresh(0), cfg, steps).breaker.state.Closed?
  {
    var cfg := Config(1, 10, 1);
    var steps := [Call(1, 0), Call(2, 0), Return(1, true, 0), Call(3, 10), Return(2, true, 10), Return(3, false, 11)];
    assert steps[..0] == [];
    RunAppend(Fresh(0), cfg, steps[..0], steps[0]);
    assert steps[..1] == steps[..0] + [steps[0]];
    RunAppend(Fresh(0), cfg, steps[..1], steps[1]);
    assert steps[..2] == steps[..1] + [steps[1]];
    RunAppend(Fresh(0), cfg, steps[..2], steps[2]);
    assert steps[..3] == steps[..2] + [steps[2]];
    RunAppend(Fresh(0), cfg, steps[..3], steps[3]);
    assert steps[..4] == steps[..3] + [steps[3]];
    RunAppend(Fresh(0), cfg, steps[..4], steps[4]);
    assert steps[..5] == steps[..4] + [steps[4]];
    RunAppend(Fresh(0), cfg, steps[..5], steps[5]);
    assert steps == steps[..5] + [steps[5]];
  }

  lemma {:induction false} RunAppend(s: Sys, cfg: Config, steps: seq<Step>, step: Step)
    requires Runs(s, cfg, steps) && Enabled(Run(s, cfg, steps), step)
    ensures Runs(s, cfg, steps + [step]) && Run(s, cfg, steps + [step]) == Next(Run(s, cfg, steps), cfg, step)
    decreases |steps|
  {
    if steps == [] {
      assert steps + [step] == [step] && [step][1..] == [];
      assert Runs(Next(s, cfg, step), cfg, []);
    } else {
      assert (steps + [step])[1..] == steps[1..] + [step];
      RunAppend(Next(s, cfg, steps[0]), cfg, steps[1..], step);
    }
  }

  /** The ends that a closed breaker counts: true is one failure more, false starts again. A probe
      left over from before counts only when its success completes successThreshold. */
  function ClosedMarks(s: Sys, cfg: Config, steps: seq<Step>): seq<bool>
    requires Runs(s, cfg, steps)
    decreases |steps|
  {
    if steps == [] then []
    else
      (if Ends(s, steps[0], Normal) then [steps[0].failed]
       else if Ends(s, steps[0], Probe) && !steps[0].failed && cfg.successThreshold <= s.breaker.succ + 1 then [false]
       else [])
      + ClosedMarks(Next(s, cfg, steps[0]), cfg, steps[1..])
  }

  predicate NoProbeFails(s: Sys, cfg: Config, steps: seq<Step>)
    requires Runs(s, cfg, steps)
  {
    false !in ProbeSuccesses(s, cfg, steps)
  }

  /** A closed breaker stays closed exactly as long as failureThreshold failures in a row do not
      come about, counting on from its count, and no probe left over from before fails: such a
      failure opens it whatever the count. */
  lemma {:induction false} StaysClosedExactlyWhen(s: Sys, cfg: Config, steps: seq<Step>)
    requires s.breaker.state.Closed? && Runs(s, cfg, steps)
    ensures Stays(Closed, s, cfg, steps) <==>
            NoProbeFails(s, cfg, steps) && !Reaches(s.breaker.fails, ClosedMarks(s, cfg, steps), cfg.failureThreshold)
    decreases |steps|
  {
    if steps != [] {
      var t, rest := Next(s, cfg, steps[0]), steps[1..];
      MarksStep(s, cfg, steps);
      ClosedMarksStep(s, cfg, steps);
      InMarks(ProbeSuccesses(s, cfg, steps));
      if t.breaker.state.Closed? {
        StaysClosedExactlyWhen(t, cfg, rest);
      }
    }
  }

  lemma InMarks(marks: seq<bool>)
    ensures marks != [] ==> (false in marks <==> !marks[0] || false in marks[1..])
  {
    if marks != [] {
      assert marks == [marks[0]] + marks[1..];
    }
  }

  lemma ClosedMarksStep(s: Sys, cfg: Config, steps: seq<Step>)
    requires steps != [] && Runs(s, cfg, steps)
    ensures var (marks, later) := (ClosedMarks(s, cfg, steps), ClosedMarks(Next(s, cfg, steps[0]), cfg, steps[1..]));
            if Ends(s, steps[0], Normal) then marks != [] && marks[0] == steps[0].failed && marks[1..] == later
            else if Ends(s, steps[0], Probe) && !steps[0].failed && cfg.successThreshold <= s.breaker.succ + 1
            then marks != [] && !marks[0] && marks[1..] == later
            else marks == later
  {
  }

  lemma {:induction false} StaysClosedWithoutLeftOvers(s: Sys, cfg: Config, steps: seq<Step>)
    requires s.breaker.state.Closed? && Runs(s, cfg, steps) && forall id | id in s.calls :: s.calls[id].Normal?
    ensures Stays(Closed, s, cfg, steps) <==>
            !Reaches(s.breaker.fails, NormalFailures(s, cfg, steps), cfg.failureThreshold)
    decreases |steps|
  {
    if steps != [] {
      var t := Next(s, cfg, steps[0]);
      MarksStep(s, cfg, steps);
      if t.breaker.state.Closed? {
        StaysClosedWithoutLeftOvers(t, cfg, steps[1..]);
      }
    }
  }

  /** From a new breaker, where no probe is left over: it stays closed exactly as long as no
      failureThreshold calls admitted while closed, ending one after the other, fail in a row. */
  lemma OpensExactlyAfterStreak(now: int, cfg: Config, steps: seq<Step>)
    requires ValidConfig(cfg) && Runs(Fresh(now), cfg, steps)
    ensures Stays(Closed, Fresh(now), cfg, steps) <==>
            !exists i :: Streak(NormalFailures(Fresh(now), cfg, steps), i, cfg.failureThreshold)
  {
    StaysClosedWithoutLeftOvers(Fresh(now), cfg, steps);
    ReachesByStreak(0, NormalFailures(Fresh(now), cfg, steps), cfg.failureThreshold);
  }

  /** A half-open breaker stays half-open exactly as long as no probe fails, the successes do not
      reach successThreshold, and the calls left over from when it was closed do not reach
      failureThreshold failures in a row. */
  lemma {:induction false} StaysHalfOpenExactlyWhen(s: Sys, cfg: Config, steps: seq<Step>)
    requires ValidConfig(cfg) && s.breaker.state.HalfOpen? && Runs(s, cfg, steps) && s.breaker.succ < cfg.successThreshold
    ensures Stays(HalfOpen, s, cfg, steps) <==>
            && NoProbeFails(s, cfg, steps)
            && s.breaker.succ + |ProbeSuccesses(s, cfg, steps)| < cfg.successThreshold
            && !Reaches(s.breaker.fails, NormalFailures(s, cfg, steps), cfg.failureThreshold)
    decreases |steps|
  {
    if steps != [] {
      var t, rest := Next(s, cfg, steps[0]), steps[1..];
      MarksStep(s, cfg, steps);
      InMarks(ProbeSuccesses(s, cfg, steps));
      HalfOpenStep(s, cfg, steps[0]);
      if t.breaker.state.HalfOpen? {
        StaysHalfOpenExactlyWhen(t, cfg, rest);
      }
    }
  }

  /** How it leaves half-open: a failure of any kind opens it, restarting timeout and successes, and
      only the last of successThreshold successful probes closes it. */
  lemma LeavesHalfOpen(s: Sys, cfg: Config, step: Step)
    requires ValidConfig(cfg) && Invariant(s, cfg) && s.breaker.state.HalfOpen? && Enabled(s, step)
    requires !Next(s, cfg, step).breaker.state.HalfOpen?
    ensures var b := Next(s, cfg, step).breaker;
            && step.Return?
            && (b.state.Open? <==> step.failed)
            && (b.state.Open? ==>
                  && b.lastChange == step.now && b.succ == 0 && !b.probeInFlight
                  && forall later :: Begin(b, cfg, later).1 == if later < step.now + cfg.resetTimeout then RejectOpen else RunProbe)
            && (b.state.Closed? ==> s.calls[step.id].Probe? && s.breaker.succ + 1 == cfg.successThreshold && b.fails == 0)
  {
  }

  /** A half-open breaker that has just opened up, run on: when it is closed by a step that takes it
      out of half-open, exactly successThreshold probes have succeeded and none has failed. */
  lemma ClosesExactlyAfterProbes(s: Sys, cfg: Config, steps: seq<Step>, last: Step)
    requires ValidConfig(cfg) && Invariant(s, cfg) && s.breaker.state.HalfOpen? && s.breaker.succ == 0
    requires Runs(s, cfg, steps) && Stays(HalfOpen, s, cfg, steps) && Enabled(Run(s, cfg, steps), last)
    ensures var t := Run(s, cfg, steps);
            Next(t, cfg, last).breaker.state.Closed? <==>
            && Ends(t, last, Probe) && !last.failed && |ProbeSuccesses(s, cfg, steps)| + 1 == cfg.successThreshold
  {
    RunKeepsInvariant(s, cfg, steps);
    StaysHalfOpenExactlyWhen(s, cfg, steps);
    CountsSuccesses(s, cfg, steps);
  }

  lemma {:induction false} CountsSuccesses(s: Sys, cfg: Config, steps: seq<Step>)
    requires Runs(s, cfg, steps) && Stays(HalfOpen, s, cfg, steps)
    ensures var t := Run(s, cfg, steps);
            t.breaker.state.HalfOpen? && t.breaker.succ == s.breaker.succ + |ProbeSuccesses(s, cfg, steps)|
    decreases |steps|
  {
    if steps != [] {
      MarksStep(s, cfg, steps);
      HalfOpenStep(s, cfg, steps[0]);
      CountsSuccesses(Next(s, cfg, steps[0]), cfg, steps[1..]);
    }
  }

  /** One failed probe, after any number of successes and whatever stragglers do, opens the breaker
      anew: timeout and count of successes start again, and after the timeout there is a new probe. */
  lemma FailedProbeReopens(s: Sys, cfg: Config, steps: seq<Step>, last: Step)
    requires ValidConfig(cfg) && Invariant(s, cfg) && Runs(s, cfg, steps) && Stays(HalfOpen, s, cfg, steps)
    requires Ends(Run(s, cfg, steps), last, Probe) && last.failed
    ensures var b := Next(Run(s, cfg, steps), cfg, last).breaker;
            && b.state.Open? && b.lastChange == last.now && b.succ == 0 && !b.probeInFlight
            && forall later :: Begin(b, cfg, later).1 == if later < last.now + cfg.resetTimeout then RejectOpen else RunProbe
  {
    RunKeepsInvariant(s, cfg, steps);
    CountsSuccesses(s, cfg, steps);
  }
}
