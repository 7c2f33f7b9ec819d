/** A task with both limits: attempts and review cycles. A run that fails retryably starts again
    from the first agent. */
module ReviewRetry {
  import opened Review
  import opened TaskPhase
  import opened Text
  import Retry

  /** How an attempt goes: what its agents do up to the first pause, and whether its failures
      count as retryable. */
  datatype Attempt = Attempt(run: Agents, retryable: bool)

  type World = int -> Attempt

  /** The task, and where its review stands. */
  datatype Life = Life(task: Retry.Task, state: State)

  function AttemptsLeft(t: Retry.Task): nat {
    if t.attempts < t.maxAttempts then t.maxAttempts - t.attempts else 0
  }

  /** A failed state goes through the failure handler; a rescheduled task is claimed and runs
      again from the start, until a run pauses, ends, or may not be repeated. */
  function Settle(p: Pipeline, t: Retry.Task, s: State, input: Input, world: World): Life
    decreases AttemptsLeft(t)
  {
    if !s.Failed? then Life(t, s)
    else
      var handled := Retry.HandleExecutionFailure(t.(phase := Running), world(t.attempts).retryable).0;
      if !Retry.Claimable(handled) then Life(handled, s)
      else
        var again := Retry.Claim(handled);
        Settle(p, again, Execute(p, world(again.attempts).run, 0, map[], input), input, world)
  }

  /** Denied, expired or refused: the task fails and is not repeated. */
  predicate Final(a: Approval, d: Decision) {
    || d.Deny? || d.Expire?
    || (d.RequestChanges? && (!a.checkpoint.AllowsRequestChanges() || a.cycle >= a.checkpoint.MaxCycles()))
  }

  function DecideTask(p: Pipeline, t: Retry.Task, a: Approval, d: Decision, input: Input, world: World): Life {
    if Final(a, d) then Life(t.(phase := Phase.Failed), State.Failed)
    else Settle(p, t, Decide(p, a, d), input, world)
  }

  function RunTask(p: Pipeline, life: Life, ds: seq<(Decision, World)>, input: Input): Life
    decreases |ds|
  {
    if ds == [] || !life.state.Waiting? then life
    else RunTask(p, DecideTask(p, life.task, life.state.approval, ds[0].0, input, ds[0].1), ds[1..], input)
  }

  /** The first claim of a fresh task. */
  function Begin(p: Pipeline, max: int, backoff: Option<int>, input: Input, world: World): Life {
    var t := Retry.Claim(Retry.Task(Pending, 0, max, backoff));
    Settle(p, t, Execute(p, world(1).run, 0, map[], input), input, world)
  }

  // ---------------------------------------------------------------------- bound

  /** Decisions a task can still take, over this and all later attempts. */
  function Measure(p: Pipeline, life: Life): int
    requires p.Valid()
  {
    AttemptsLeft(life.task) * Budget(p, 0) + DecisionsLeft(p, life.state)
  }

  lemma {:induction false} SettleBound(p: Pipeline, t: Retry.Task, s: State, input: Input, world: World)
    requires p.Valid() && !DoubleFinalReview(p) && ConsistentState(p, s)
    ensures var life := Settle(p, t, s, input, world);
            ConsistentState(p, life.state) && life.task.maxAttempts == t.maxAttempts
    ensures Measure(p, Settle(p, t, s, input, world)) <= AttemptsLeft(t) * Budget(p, 0) + DecisionsLeft(p, s)
    decreases AttemptsLeft(t)
  {
    if s.Failed? {
      var handled := Retry.HandleExecutionFailure(t.(phase := Running), world(t.attempts).retryable).0;
      if Retry.Claimable(handled) {
        var again := Retry.Claim(handled);
        var next := Execute(p, world(again.attempts).run, 0, map[], input);
        ExecuteConsistent(p, world(again.attempts).run, 0, map[], input);
        WithinBudget(p, next);
        SettleBound(p, again, next, input, world);
        OneLess(AttemptsLeft(t), Budget(p, 0));
      }
    }
  }

  lemma OneLess(n: nat, b: nat)
    ensures n > 0 ==> (n - 1) * b + b == n * b
  {
  }

  lemma DecideTaskDecreases(p: Pipeline, t: Retry.Task, a: Approval, d: Decision, input: Input, world: World)
    requires p.Valid() && !DoubleFinalReview(p) && Consistent(p, a)
    ensures var life := DecideTask(p, t, a, d, input, world);
            ConsistentState(p, life.state) && life.task.maxAttempts == t.maxAttempts
            && Measure(p, life) < Measure(p, Life(t, Waiting(a)))
  {
    DecisionDecreases(p, a, d);
    if !Final(a, d) {
      SettleBound(p, t, Decide(p, a, d), input, world);
    }
  }

  lemma {:induction false} RunTaskEnds(p: Pipeline, life: Life, ds: seq<(Decision, World)>, input: Input)
    requires p.Valid() && !DoubleFinalReview(p) && ConsistentState(p, life.state) && |ds| >= Measure(p, life)
    ensures !RunTask(p, life, ds, input).state.Waiting?
    decreases |ds|
  {
    if life.state.Waiting? {
      assert Measure(p, life) >= DecisionsLeft(p, life.state) by {
        assert AttemptsLeft(life.task) * Budget(p, 0) >= 0;
      }
      DecideTaskDecreases(p, life.task, life.state.approval, ds[0].0, input, ds[0].1);
      RunTaskEnds(p, DecideTask(p, life.task, life.state.approval, ds[0].0, input, ds[0].1), ds[1..], input);
    }
  }

  lemma BeginBound(p: Pipeline, max: int, backoff: Option<int>, input: Input, world: World)
    requires p.Valid() && !DoubleFinalReview(p)
    ensures var life := Begin(p, max, backoff, input, world);
            ConsistentState(p, life.state) && Measure(p, life) <= Bound(p, max)
  {
    var t, first := Retry.Claim(Retry.Task(Pending, 0, max, backoff)), Execute(p, world(1).run, 0, map[], input);
    ExecuteConsistent(p, world(1).run, 0, map[], input);
    WithinBudget(p, first);
    SettleBound(p, t, first, input, world);
    OneLess(if max > 1 then max else 1, Budget(p, 0));
  }

  function Bound(p: Pipeline, max: int): int {
    (if max > 1 then max else 1) * Budget(p, 0)
  }

  /** Attempts times review cycles bound the decisions on a task, whatever its agents do. */
  lemma TaskEnds(p: Pipeline, max: int, backoff: Option<int>, input: Input, world: World, ds: seq<(Decision, World)>)
    requires p.Valid() && !DoubleFinalReview(p) && |ds| >= Bound(p, max)
    ensures !RunTask(p, Begin(p, max, backoff, input, world), ds, input).state.Waiting?
  {
    BeginBound(p, max, backoff, input, world);
    RunTaskEnds(p, Begin(p, max, backoff, input, world), ds, input);
  }

  // ------------------------------------------------------- checkpoints reached again

  function Breaks(): Agents {
    (_: nat, _: Input) => Failure
  }

  /** Runs that go well as far as they get, and failures worth repeating. */
  function Steady(): World {
    (_: int) => Attempt(Quiet(), true)
  }

  /** With a reviewed first agent, another after it and a second attempt: the first review is
      approved, the next agent fails retryably, and the task waits at the very same checkpoint
      and cycle again. */
  lemma RetryReachesAgain(p: Pipeline, max: int, base: int, input: Input)
    requires p.Valid() && |p.reviews| > 1 && p.reviews[0].Some? && max > 1
    ensures var life := Begin(p, max, Some(base), input, Steady());
            life.state.Waiting? && life.task.attempts == 1 &&
            var next := DecideTask(p, life.task, life.state.approval, Approve(Breaks()), input, Steady());
            next.state == life.state && next.task.attempts == 2
  {
    var first := Execute(p, Quiet(), 0, map[], input);
    assert first == PauseAt(p.reviews[0].value, input, NextInput(input, map[]), 0);
    var t := Retry.Claim(Retry.Task(Pending, 0, max, Some(base)));
    assert Begin(p, max, Some(base), input, Steady()) == Life(t, first);
    assert Decide(p, first.approval, Approve(Breaks())) == State.Failed;
    var handled := Retry.HandleExecutionFailure(t, true).0;
    assert handled.phase == Pending && handled.attempts == 1;
    assert Settle(p, Retry.Claim(handled), first, input, Steady()) == Life(Retry.Claim(handled), first);
  }
}
