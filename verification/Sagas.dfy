/** The generic saga orchestrator: ordered steps, compensated in reverse order
    once a step fails. The world the steps act on is a type parameter; what a
    step or a compensation does to it, and whether it reports success, is
    whatever its function says. */
module Sagas {
  import opened Optional

  datatype Outcome<+S> = Outcome(world: S, ok: bool)

  datatype Step<!S> = Step(name: string, execute: S -> Outcome<S>, compensate: Option<S -> Outcome<S>>)

  datatype SagaState = Running | Done | Compensating | Failed

  datatype StepStatus = Pending | Completed | Broken | Compensated

  datatype Call = Exec(step: nat) | Comp(step: nat)

  datatype Report = Succeeded | NotCreated | StepFailed(step: nat) | CompensationFailed(step: nat)

  /** The world and the number of steps that succeeded once the forward pass ends. */
  function Forward<S>(steps: seq<Step<S>>, i: nat, w: S): (r: (S, nat))
    requires i <= |steps|
    ensures i <= r.1 <= |steps|
    decreases |steps| - i
  {
    if i == |steps| then (w, i)
    else
      var o := steps[i].execute(w);
      if o.ok then Forward(steps, i + 1, o.world) else (o.world, i)
  }

  /** Compensates steps n-1 .. 0; the flag says that no compensation failed. */
  function Backward<S>(steps: seq<Step<S>>, n: nat, w: S): (S, bool)
    requires n <= |steps|
  {
    if n == 0 then (w, true)
    else
      var o := Undo(steps[n - 1], w);
      var r := Backward(steps, n - 1, o.world);
      (r.0, o.ok && r.1)
  }

  function Undo<S>(step: Step<S>, w: S): Outcome<S> {
    if step.compensate.None? then Outcome(w, true) else step.compensate.value(w)
  }

  /** The world in which the compensation of step i is called when n steps are undone. */
  function BeforeUndo<S>(steps: seq<Step<S>>, n: nat, i: nat, w: S): S
    requires i < n <= |steps|
    decreases n
  {
    if i == n - 1 then w else BeforeUndo(steps, n - 1, i, Undo(steps[n - 1], w).world)
  }

  /** The records once steps n-1 .. 0 are compensated. */
  function Updated<S>(steps: seq<Step<S>>, n: nat, w: S, records: seq<StepStatus>): (r: seq<StepStatus>)
    requires n <= |steps| == |records|
    ensures |r| == |steps|
  {
    if n == 0 then records
    else
      var o := Undo(steps[n - 1], w);
      Updated(steps, n - 1, o.world,
              if steps[n - 1].compensate.None? then records
              else records[n - 1 := if o.ok then Compensated else Broken])
  }

  lemma {:induction false} UpdatedAt<S>(steps: seq<Step<S>>, n: nat, w: S, records: seq<StepStatus>, k: nat)
    requires n <= |steps| == |records| && k < |steps|
    ensures Updated(steps, n, w, records)[k] ==
            if n <= k || steps[k].compensate.None? then records[k]
            else if Undo(steps[k], BeforeUndo(steps, n, k, w)).ok then Compensated else Broken
  {
    if n > 0 {
      var o := Undo(steps[n - 1], w);
      UpdatedAt(steps, n - 1, o.world,
                if steps[n - 1].compensate.None? then records
                else records[n - 1 := if o.ok then Compensated else Broken], k);
    }
  }

  function Final<S>(steps: seq<Step<S>>, w: S): S {
    var (w', n) := Forward(steps, 0, w);
    if n == |steps| then w' else Backward(steps, n, w').0
  }

  function Outline<S>(steps: seq<Step<S>>, w: S): Report {
    var (w', n) := Forward(steps, 0, w);
    if n == |steps| then Succeeded
    else if Backward(steps, n, w').1 then StepFailed(n)
    else CompensationFailed(n)
  }

  /** What the record of step i says in the end. */
  function Record<S>(steps: seq<Step<S>>, w: S, i: nat): StepStatus
    requires i < |steps|
  {
    var (w', n) := Forward(steps, 0, w);
    if i > n then Pending
    else if i == n then Broken
    else if n == |steps| || steps[i].compensate.None? then Completed
    else if Undo(steps[i], BeforeUndo(steps, n, i, w')).ok then Compensated
    else Broken
  }

  function ExecCalls(n: nat): seq<Call> {
    seq(n, i requires 0 <= i < n => Exec(i))
  }

  function CompCalls<S>(steps: seq<Step<S>>, n: nat): seq<Call>
    requires n <= |steps|
  {
    if n == 0 then []
    else (if steps[n - 1].compensate.Some? then [Comp(n - 1)] else []) + CompCalls(steps, n - 1)
  }

  /** The calls a run makes: each step up to the failing one, then the compensations downwards. */
  function Calls<S>(steps: seq<Step<S>>, w: S): seq<Call> {
    var n := Forward(steps, 0, w).1;
    if n == |steps| then ExecCalls(n) else ExecCalls(n + 1) + CompCalls(steps, n)
  }

  class Orchestrator<S> {
    var world: S
    var state: SagaState
    var currentStep: nat
    var records: seq<StepStatus>
    ghost var calls: seq<Call>

    constructor (w: S)
      ensures world == w && state == Running && records == [] && calls == []
    {
      world, state, currentStep, records, calls := w, Running, 0, [], [];
    }

    /** createSagaOk and recordsCreated say how far the inserts of the saga row and
        of its step rows got; later bookkeeping writes succeed. */
    method Execute(steps: seq<Step<S>>, createSagaOk: bool, recordsCreated: nat) returns (report: Report)
      requires records == [] && calls == []
      modifies this
      ensures !createSagaOk || recordsCreated < |steps| ==>
                report == NotCreated && world == old(world) && calls == []
      ensures createSagaOk && |steps| <= recordsCreated ==>
                && report == Outline(steps, old(world))
                && world == Final(steps, old(world))
                && calls == Calls(steps, old(world))
                && state == (if report.Succeeded? then Done else Failed)
                && (report.StepFailed? || report.CompensationFailed? ==> currentStep == report.step)
                && (report.Succeeded? && steps != [] ==> currentStep == |steps| - 1)
                && |records| == |steps|
                && forall i :: 0 <= i < |steps| ==> records[i] == Record(steps, old(world), i)
    {
      if !createSagaOk {
        return NotCreated;
      }
      state, currentStep := Running, 0;
      for k := 0 to |steps|
        invariant world == old(world) && calls == [] && state == Running
        invariant records == seq(k, _ => Pending) && k <= recordsCreated
      {
        if k == recordsCreated {
          return NotCreated;
        }
        records := records + [Pending];
      }

      var failedStep := RunSteps(steps);
      if failedStep == |steps| {
        state := Done;
        return Succeeded;
      }
      ghost var (w, before) := (world, records);
      var undone := Compensate(steps, failedStep);
      forall k | 0 <= k < |steps| ensures records[k] == Record(steps, old(world), k) {
        UpdatedAt(steps, failedStep, w, before, k);
      }
      state := Failed;
      return if undone then StepFailed(failedStep) else CompensationFailed(failedStep);
    }

    /** Runs the steps in order up to the first that fails; |steps| when none does. */
    method RunSteps(steps: seq<Step<S>>) returns (failedStep: nat)
      requires calls == [] && records == seq(|steps|, _ => Pending)
      modifies this
      ensures world == Forward(steps, 0, old(world)).0 && failedStep == Forward(steps, 0, old(world)).1
      ensures calls == ExecCalls(if failedStep == |steps| then failedStep else failedStep + 1)
      ensures |records| == |steps|
      ensures failedStep < |steps| ==> currentStep == failedStep
      ensures failedStep == |steps| > 0 ==> currentStep == |steps| - 1
      ensures forall k :: 0 <= k < |steps| ==>
                            records[k] == if k < failedStep then Completed else if k == failedStep then Broken else Pending
    {
      for i := 0 to |steps|
        invariant |records| == |steps| && calls == ExecCalls(i) && (i > 0 ==> currentStep == i - 1)
        invariant Forward(steps, i, world) == Forward(steps, 0, old(world))
        invariant forall k :: 0 <= k < |steps| ==> records[k] == if k < i then Completed else Pending
      {
        currentStep := i;
        var o := steps[i].execute(world);
        world := o.world;
        calls := calls + [Exec(i)];
        if !o.ok {
          records := records[i := Broken];
          return i;
        }
        records := records[i := Completed];
      }
      return |steps|;
    }

    /** Runs the compensations of steps failedStep-1 .. 0, going on after a failing one. */
    method Compensate(steps: seq<Step<S>>, failedStep: nat) returns (undone: bool)
      requires failedStep < |steps| == |records|
      modifies this
      ensures world == Backward(steps, failedStep, old(world)).0 && undone == Backward(steps, failedStep, old(world)).1
      ensures calls == old(calls) + CompCalls(steps, failedStep)
      ensures records == Updated(steps, failedStep, old(world), old(records)) && currentStep == old(currentStep)
    {
      state := Compensating;
      undone := true;
      var i := failedStep;
      while i > 0
        invariant 0 <= i <= failedStep && |records| == |steps| && currentStep == old(currentStep)
        invariant Backward(steps, failedStep, old(world)).0 == Backward(steps, i, world).0
        invariant Backward(steps, failedStep, old(world)).1 == (undone && Backward(steps, i, world).1)
        invariant old(calls) + CompCalls(steps, failedStep) == calls + CompCalls(steps, i)
        invariant Updated(steps, failedStep, old(world), old(records)) == Updated(steps, i, world, records)
      {
        i := i - 1;
        var step := steps[i];
        if step.compensate.Some? {
          var o := step.compensate.value(world);
          world := o.world;
          calls := calls + [Comp(i)];
          if !o.ok {
            undone := false;
            records := records[i := Broken];
          } else {
            records := records[i := Compensated];
          }
        }
      }
    }
  }

  // ---- Which calls a run makes ----

  lemma {:induction false} CompCallsAreExactly<S>(steps: seq<Step<S>>, n: nat)
    requires n <= |steps|
    ensures forall i: nat :: Comp(i) in CompCalls(steps, n) <==> i < n && steps[i].compensate.Some?
    ensures forall c :: c in CompCalls(steps, n) ==> c.Comp?
    ensures forall p, q :: 0 <= p < q < |CompCalls(steps, n)| ==>
                             CompCalls(steps, n)[q].step < CompCalls(steps, n)[p].step
  {
    if n > 0 {
      CompCallsAreExactly(steps, n - 1);
      var rest := CompCalls(steps, n - 1);
      forall q | 0 <= q < |rest| ensures rest[q].step < n - 1 {
        assert rest[q] in rest;
      }
    }
  }

  /** Steps run once each, in order, up to the first failure; after a failure exactly the
      completed steps that have a compensation are compensated, once each, in reverse order. */
  lemma CallsOfARun<S>(steps: seq<Step<S>>, w: S)
    ensures var n := Forward(steps, 0, w).1;
            var calls := Calls(steps, w);
            var runs := if n == |steps| then n else n + 1;
            && runs <= |calls|
            && (forall p :: 0 <= p < runs ==> calls[p] == Exec(p))
            && (forall p :: runs <= p < |calls| ==> calls[p].Comp?)
            && (forall p, q :: runs <= p < q < |calls| ==> calls[q].step < calls[p].step)
            && (forall i: nat :: Comp(i) in calls <==> n < |steps| && i < n && steps[i].compensate.Some?)
  {
    var n := Forward(steps, 0, w).1;
    CompCallsAreExactly(steps, n);
    forall p | 0 <= p < |CompCalls(steps, n)| ensures CompCalls(steps, n)[p].Comp? {
      assert CompCalls(steps, n)[p] in CompCalls(steps, n);
    }
    forall i: nat ensures Comp(i) in Calls(steps, w) <==> n < |steps| && Comp(i) in CompCalls(steps, n) {
    }
  }

  // ---- The proof rule for sagas ----

  /** doing(i, w): i steps are done. undoing(i, w): steps 0..i-1 are still to be compensated. */
  ghost predicate Sound<S(!new)>(steps: seq<Step<S>>, doing: (nat, S) -> bool, undoing: (nat, S) -> bool) {
    && (forall i: nat, w :: i < |steps| && doing(i, w) && steps[i].execute(w).ok ==>
                              doing(i + 1, steps[i].execute(w).world))
    && (forall i: nat, w :: i < |steps| && doing(i, w) && !steps[i].execute(w).ok ==>
                              undoing(i, steps[i].execute(w).world))
    && (forall i: nat, w :: i < |steps| && undoing(i + 1, w) ==> undoing(i, Undo(steps[i], w).world))
  }

  ghost predicate UndoNeverFails<S(!new)>(steps: seq<Step<S>>, undoing: (nat, S) -> bool) {
    forall i: nat, w :: i < |steps| && undoing(i + 1, w) ==> Undo(steps[i], w).ok
  }

  /** From step-wise conditions to the end of the whole run, for any definition. */
  lemma SagaRule<S(!new)>(steps: seq<Step<S>>, w: S, doing: (nat, S) -> bool, undoing: (nat, S) -> bool)
    requires Sound(steps, doing, undoing) && doing(0, w)
    ensures var n := Forward(steps, 0, w).1;
            if n == |steps| then doing(n, Final(steps, w)) else undoing(0, Final(steps, w))
    ensures UndoNeverFails(steps, undoing) ==> !Outline(steps, w).CompensationFailed?
  {
    ForwardRule(steps, 0, w, doing, undoing);
    var (w', n) := Forward(steps, 0, w);
    if n < |steps| {
      BackwardRule(steps, n, w', doing, undoing);
    }
  }

  lemma {:induction false} ForwardRule<S(!new)>(steps: seq<Step<S>>, i: nat, w: S,
                                                doing: (nat, S) -> bool, undoing: (nat, S) -> bool)
    requires Sound(steps, doing, undoing) && i <= |steps| && doing(i, w)
    ensures var (w', n) := Forward(steps, i, w); if n == |steps| then doing(n, w') else undoing(n, w')
    decreases |steps| - i
  {
    if i < |steps| {
      var o := steps[i].execute(w);
      if o.ok {
        ForwardRule(steps, i + 1, o.world, doing, undoing);
      } else {
        assert undoing(i, o.world);
      }
    }
  }

  lemma {:induction false} BackwardRule<S(!new)>(steps: seq<Step<S>>, n: nat, w: S,
                                                 doing: (nat, S) -> bool, undoing: (nat, S) -> bool)
    requires Sound(steps, doing, undoing) && n <= |steps| && undoing(n, w)
    ensures undoing(0, Backward(steps, n, w).0)
    ensures UndoNeverFails(steps, undoing) ==> Backward(steps, n, w).1
  {
    if n > 0 {
      BackwardRule(steps, n - 1, Undo(steps[n - 1], w).world, doing, undoing);
    }
  }

  // ---- Compensations that invert their steps ----

  /** The world after the first i steps, as if all of them succeeded. */
  function Fold<S>(steps: seq<Step<S>>, i: nat, w: S): S
    requires i <= |steps|
  {
    if i == 0 then w else steps[i - 1].execute(Fold(steps, i - 1, w)).world
  }

  // ---- What is reported ----

  /** Steps 0 .. n-1 succeed, each in the world that the one before left. */
  predicate SucceedUpTo<S>(steps: seq<Step<S>>, w: S, n: nat)
    requires n <= |steps|
  {
    n == 0 || (SucceedUpTo(steps, w, n - 1) && steps[n - 1].execute(Fold(steps, n - 1, w)).ok)
  }

  /** And step n, if there is one, fails. */
  predicate StopsAt<S>(steps: seq<Step<S>>, w: S, n: nat)
    requires n <= |steps|
  {
    SucceedUpTo(steps, w, n) && (n < |steps| ==> !steps[n].execute(Fold(steps, n, w)).ok)
  }

  lemma {:induction false} ForwardStops<S>(steps: seq<Step<S>>, w: S, i: nat)
    requires i <= |steps| && SucceedUpTo(steps, w, i)
    ensures var (w', n) := Forward(steps, i, Fold(steps, i, w));
            StopsAt(steps, w, n) && w' == Fold(steps, if n < |steps| then n + 1 else n, w)
    decreases |steps| - i
  {
    if i < |steps| {
      var o := steps[i].execute(Fold(steps, i, w));
      assert Fold(steps, i + 1, w) == o.world;
      if o.ok {
        ForwardStops(steps, w, i + 1);
      }
    }
  }

  lemma {:induction false} SucceedBefore<S>(steps: seq<Step<S>>, w: S, m: nat, n: nat)
    requires m < n <= |steps| && SucceedUpTo(steps, w, n)
    ensures SucceedUpTo(steps, w, m) && steps[m].execute(Fold(steps, m, w)).ok
    decreases n
  {
    if m < n - 1 {
      SucceedBefore(steps, w, m, n - 1);
    }
  }

  lemma ForwardExactly<S>(steps: seq<Step<S>>, w: S, n: nat)
    requires n <= |steps|
    ensures Forward(steps, 0, w).1 == n <==> StopsAt(steps, w, n)
    ensures StopsAt(steps, w, n) ==> Forward(steps, 0, w).0 == Fold(steps, if n < |steps| then n + 1 else n, w)
  {
    ForwardStops(steps, w, 0);
    var m := Forward(steps, 0, w).1;
    if m < n && SucceedUpTo(steps, w, n) {
      SucceedBefore(steps, w, m, n);
    } else if n < m {
      SucceedBefore(steps, w, n, m);
    }
  }

  /** Step i has a compensation, and it does not succeed in the world that the compensations of the
      steps after it leave when n steps are undone from w on. */
  predicate CompensationFails<S>(steps: seq<Step<S>>, n: nat, i: nat, w: S)
    requires i < n <= |steps|
  {
    steps[i].compensate.Some? && !steps[i].compensate.value(BeforeUndo(steps, n, i, w)).ok
  }

  /** Each compensation finds the world that the one of the next step left, failing or not. */
  lemma {:induction false} UndoneInTurn<S>(steps: seq<Step<S>>, n: nat, i: nat, w: S)
    requires i < n <= |steps|
    ensures var after := match steps[i].compensate
              case None => BeforeUndo(steps, n, i, w)
              case Some(c) => c(BeforeUndo(steps, n, i, w)).world;
            if i == 0 then Backward(steps, n, w).0 == after else BeforeUndo(steps, n, i - 1, w) == after
    ensures BeforeUndo(steps, n, n - 1, w) == w
    decreases n
  {
    if i < n - 1 {
      UndoneInTurn(steps, n - 1, i, Undo(steps[n - 1], w).world);
    }
  }

  lemma {:induction false} AllUndoneExactlyWhen<S>(steps: seq<Step<S>>, n: nat, w: S)
    requires n <= |steps|
    ensures Backward(steps, n, w).1 <==> forall i: nat :: i < n ==> !CompensationFails(steps, n, i, w)
  {
    if n > 0 {
      var o := Undo(steps[n - 1], w);
      AllUndoneExactlyWhen(steps, n - 1, o.world);
      assert CompensationFails(steps, n, n - 1, w) <==> !o.ok;
      forall i: nat | i < n - 1 ensures CompensationFails(steps, n, i, w) <==> CompensationFails(steps, n - 1, i, o.world) {
      }
      if !Backward(steps, n - 1, o.world).1 {
        var i: nat :| i < n - 1 && CompensationFails(steps, n - 1, i, o.world);
        assert CompensationFails(steps, n, i, w);
      }
    }
  }

  /** The report names the step that failed, and says that its compensation failed exactly when
      that of some earlier step did, whatever the compensations after it achieved. */
  lemma ReportExactlyWhen<S>(steps: seq<Step<S>>, w: S, n: nat)
    requires n <= |steps|
    ensures Outline(steps, w) == Succeeded <==> StopsAt(steps, w, |steps|)
    ensures n < |steps| ==>
              var (report, failed) := (Outline(steps, w), Fold(steps, n + 1, w));
              && (report == CompensationFailed(n) <==>
                  StopsAt(steps, w, n) && exists i: nat :: i < n && CompensationFails(steps, n, i, failed))
              && (report == StepFailed(n) <==>
                  StopsAt(steps, w, n) && forall i: nat :: i < n ==> !CompensationFails(steps, n, i, failed))
    ensures Outline(steps, w) != NotCreated
  {
    ForwardExactly(steps, w, n);
    ForwardExactly(steps, w, |steps|);
    if n < |steps| {
      AllUndoneExactlyWhen(steps, n, Fold(steps, n + 1, w));
    }
  }

  /** On the way from w, a failing step changes nothing and each compensation undoes its step. */
  ghost predicate Invertible<S>(steps: seq<Step<S>>, w: S) {
    forall i :: 0 <= i < |steps| ==>
                  var before := Fold(steps, i, w);
                  var o := steps[i].execute(before);
                  if o.ok then Undo(steps[i], o.world) == Outcome(before, true) else o.world == before
  }

  lemma {:induction false} ForwardIsFold<S>(steps: seq<Step<S>>, i: nat, w: S)
    requires i <= |steps| && Invertible(steps, w)
    ensures var (w', n) := Forward(steps, i, Fold(steps, i, w)); w' == Fold(steps, n, w)
    ensures var n := Forward(steps, i, Fold(steps, i, w)).1;
            forall k :: i <= k < n ==> steps[k].execute(Fold(steps, k, w)).ok
    decreases |steps| - i
  {
    if i < |steps| {
      var o := steps[i].execute(Fold(steps, i, w));
      assert Forward(steps, i, Fold(steps, i, w)) == if o.ok then Forward(steps, i + 1, o.world) else (o.world, i);
      if o.ok {
        assert o.world == Fold(steps, i + 1, w);
        ForwardIsFold(steps, i + 1, w);
      }
    }
  }

  lemma {:induction false} BackwardUndoesFold<S>(steps: seq<Step<S>>, n: nat, w: S)
    requires n <= |steps| && Invertible(steps, w)
    requires forall k :: 0 <= k < n ==> steps[k].execute(Fold(steps, k, w)).ok
    ensures Backward(steps, n, Fold(steps, n, w)) == (w, true)
  {
    if n > 0 {
      BackwardUndoesFold(steps, n - 1, w);
    }
  }

  /** All or nothing: a saga of invertible steps ends in the full fold or where it started. */
  lemma AllOrNothing<S>(steps: seq<Step<S>>, w: S)
    requires Invertible(steps, w)
    ensures Outline(steps, w).Succeeded? ==> Final(steps, w) == Fold(steps, |steps|, w)
    ensures !Outline(steps, w).Succeeded? ==> Final(steps, w) == w && Outline(steps, w).StepFailed?
  {
    ForwardIsFold(steps, 0, w);
    BackwardUndoesFold(steps, Forward(steps, 0, w).1, w);
  }
}
