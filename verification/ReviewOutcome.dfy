/** What becomes of a reviewed task: the outcome of every decision, in terms of the pipeline and
    of what its agents do with the inputs they get. */
module ReviewOutcome {
  import opened Review
  import opened Text

  // ------------------------------------------------------------------- hand-over

  /** The next agent's input: what is handed over, what was there before, and no review keys. */
  lemma HandoffExact(input: Input, handoff: Input, k: string)
    ensures k in NextInput(input, handoff) <==>
              (k in handoff && k in HANDOFF_KEYS) || (k in input && k !in REVIEW_KEYS)
    ensures k in handoff && k in HANDOFF_KEYS ==> NextInput(input, handoff)[k] == handoff[k]
    ensures k in input && k !in REVIEW_KEYS && !(k in handoff && k in HANDOFF_KEYS) ==>
              NextInput(input, handoff)[k] == input[k]
    ensures {"review.feedback", "review.previous_output", "review.checkpoint_id", "review.cycle",
             "review.requested_by", "review.supersedes"} !! NextInput(input, handoff).Keys
  {
    assert forall h :: h in HANDOFF_KEYS ==> h[0] != 'r';
  }

  /** The input of a request for changes: the reviewer's words and names over the old input. */
  lemma FeedbackExact(a: Approval, d: Decision, k: string)
    requires d.RequestChanges?
    ensures var f := FeedbackInput(a, d);
            && "review.feedback" in f && f["review.feedback"] == TrimSpace(d.comment)
            && "review.previous_output" in f && f["review.previous_output"] == d.previousOutput
            && "review.checkpoint_id" in f && f["review.checkpoint_id"] == TrimSpace(a.checkpoint.id)
            && "review.requested_by" in f && f["review.requested_by"] == TrimSpace(d.decidedBy)
    ensures k !in REVIEW_KEYS ==>
              (k in FeedbackInput(a, d) <==> k in a.resume.runtimeInput)
              && (k in a.resume.runtimeInput ==> FeedbackInput(a, d)[k] == a.resume.runtimeInput[k])
  {
  }

  // ---------------------------------------------------------------------- traces

  /** An unreviewed agent succeeds and hands on the next input. */
  predicate Passes(p: Pipeline, run: Agents, n: nat, input: Input, next: Input) {
    && n < |p.reviews| && p.reviews[n].None? && run(n, input).Output?
    && next == NextInput(input, run(n, input).handoff)
  }

  /** The inputs of the agents from `idx` on, as long as they are unreviewed and succeed. */
  predicate Trace(p: Pipeline, run: Agents, idx: nat, inputs: seq<Input>)
    decreases |inputs|
  {
    && |inputs| >= 1 && idx <= |p.reviews|
    && (|inputs| > 1 ==> Passes(p, run, idx, inputs[0], inputs[1]) && Trace(p, run, idx + 1, inputs[1..]))
  }

  lemma {:induction false} TraceWithin(p: Pipeline, run: Agents, idx: nat, inputs: seq<Input>)
    requires Trace(p, run, idx, inputs)
    ensures idx + |inputs| - 1 <= |p.reviews|
    decreases |inputs|
  {
    if |inputs| > 1 {
      TraceWithin(p, run, idx + 1, inputs[1..]);
    }
  }

  /** The trace ends: after the last agent, at one that fails, or at one that is reviewed. */
  predicate Stops(p: Pipeline, run: Agents, n: nat, input: Input) {
    n == |p.reviews| || (n < |p.reviews| && (run(n, input).Failure? || p.reviews[n].Some?))
  }

  /** What a run comes to at the end of its trace. */
  predicate ComesTo(p: Pipeline, run: Agents, n: nat, input: Input, s: State) {
    if n >= |p.reviews| then
      match p.completion
      case None => s == Succeeded
      case Some(c) =>
        && s.Waiting? && s.approval.checkpoint == c && s.approval.taskOutput
        && s.approval.resume.currentIndex == |p.reviews| - 1 && s.approval.resume.nextIndex == |p.reviews|
    else
      match run(n, input)
      case Failure => s == Failed
      case Output(handoff) =>
        && p.reviews[n].Some? && s.Waiting? && s.approval.checkpoint == p.reviews[n].value && !s.approval.taskOutput
        && s.approval.resume == Resume(input, NextInput(input, handoff), n, n + 1)
        && s.approval.cycle == ReviewCycleFromInput(input)
  }

  /** Every run follows its trace to the end, and comes to what that says. */
  lemma {:induction false} ExecuteOutcome(p: Pipeline, run: Agents, idx: nat, lastInput: Input, inputs: seq<Input>)
    requires Trace(p, run, idx, inputs) && Stops(p, run, idx + |inputs| - 1, inputs[|inputs| - 1])
    ensures ComesTo(p, run, idx + |inputs| - 1, inputs[|inputs| - 1], Execute(p, run, idx, lastInput, inputs[0]))
    decreases |inputs|
  {
    if |inputs| > 1 {
      ExecuteStep(p, run, idx, lastInput, inputs[0], inputs[1]);
      ExecuteOutcome(p, run, idx + 1, inputs[0], inputs[1..]);
    } else {
      ExecuteStops(p, run, idx, lastInput, inputs[0]);
    }
  }

  lemma ExecuteStep(p: Pipeline, run: Agents, idx: nat, lastInput: Input, input: Input, next: Input)
    requires Passes(p, run, idx, input, next)
    ensures Execute(p, run, idx, lastInput, input) == Execute(p, run, idx + 1, input, next)
  {
  }

  lemma ExecuteStops(p: Pipeline, run: Agents, idx: nat, lastInput: Input, input: Input)
    requires idx <= |p.reviews| && Stops(p, run, idx, input)
    ensures ComesTo(p, run, idx, input, Execute(p, run, idx, lastInput, input))
  {
  }

  lemma {:induction false} TraceExists(p: Pipeline, run: Agents, idx: nat, input: Input) returns (inputs: seq<Input>)
    requires idx <= |p.reviews|
    ensures Trace(p, run, idx, inputs) && inputs[0] == input
    ensures Stops(p, run, idx + |inputs| - 1, inputs[|inputs| - 1])
    decreases |p.reviews| - idx
  {
    if Stops(p, run, idx, input) {
      inputs := [input];
    } else {
      var rest := TraceExists(p, run, idx + 1, NextInput(input, run(idx, input).handoff));
      inputs := [input] + rest;
      assert inputs[1..] == rest;
    }
  }

  /** The review of the whole output carries the last agent's input, to run it again with (or
      what that agent handed on, if it got nothing). */
  lemma {:induction false} CompletionInput(p: Pipeline, run: Agents, idx: nat, lastInput: Input, inputs: seq<Input>)
    requires Trace(p, run, idx, inputs) && |inputs| > 1 && idx + |inputs| - 1 == |p.reviews| && p.completion.Some?
    ensures var s, last := Execute(p, run, idx, lastInput, inputs[0]), inputs[|inputs| - 2];
            var input := if last != map[] then last else inputs[|inputs| - 1];
            s.Waiting? && s.approval.resume == Resume(input, input, |p.reviews| - 1, |p.reviews|)
            && s.approval.cycle == ReviewCycleFromInput(input)
    decreases |inputs|
  {
    if |inputs| > 2 {
      CompletionInput(p, run, idx + 1, inputs[0], inputs[1..]);
    } else {
      assert |inputs[0]| > 0 <==> inputs[0] != map[];
    }
  }

  // ------------------------------------------------------------------- decisions

  /** Refusals fail the task; so does a request for changes that is switched off or out of
      cycles (three when no limit is set). */
  lemma RefusalFails(p: Pipeline, a: Approval, d: Decision)
    requires
      || d.Deny? || d.Expire?
      || (d.RequestChanges? && a.checkpoint.allowRequestChanges == Some(false))
      || (d.RequestChanges? && a.checkpoint.maxReviewCycles <= 0 && a.cycle >= 3)
      || (d.RequestChanges? && 0 < a.checkpoint.maxReviewCycles <= a.cycle)
    ensures Decide(p, a, d) == Failed
  {
  }

  /** Approving the last review succeeds, unless a completion review under another checkpoint
      id is still owed, which then starts at its first cycle. */
  lemma LastApprovalSucceeds(p: Pipeline, a: Approval, run: Agents)
    requires p.Valid() && Consistent(p, a) && (a.taskOutput || a.resume.currentIndex == |p.reviews| - 1)
    ensures var s := Decide(p, a, Approve(run));
            if a.taskOutput || p.completion.None?
               || EqualFold(TrimSpace(a.checkpoint.id), TrimSpace(p.completion.value.id))
            then s == Succeeded
            else s.Waiting? && s.approval.taskOutput && s.approval.cycle == 1
                 && s.approval.checkpoint == p.completion.value
  {
  }

  /** Any other approval runs on from the next agent, with the input handed over to it. */
  lemma ApprovalRunsOn(p: Pipeline, a: Approval, run: Agents, inputs: seq<Input>)
    requires p.Valid() && Consistent(p, a) && !a.taskOutput && a.resume.currentIndex < |p.reviews| - 1
    requires Trace(p, run, a.resume.currentIndex + 1, inputs) && inputs[0] == a.resume.nextRuntimeInput
    requires Stops(p, run, a.resume.currentIndex + |inputs|, inputs[|inputs| - 1])
    ensures ComesTo(p, run, a.resume.currentIndex + |inputs|, inputs[|inputs| - 1], Decide(p, a, Approve(run)))
  {
    ExecuteOutcome(p, run, a.resume.currentIndex + 1, map[], inputs);
  }

  /** A request for changes runs again from the reviewed agent, with the feedback as input. */
  lemma ChangesRunAgain(p: Pipeline, a: Approval, d: Decision, inputs: seq<Input>)
    requires p.Valid() && Consistent(p, a) && d.RequestChanges?
    requires a.checkpoint.AllowsRequestChanges() && a.cycle < a.checkpoint.MaxCycles()
    requires Trace(p, d.run, a.resume.currentIndex, inputs) && inputs[0] == FeedbackInput(a, d)
    requires Stops(p, d.run, a.resume.currentIndex + |inputs| - 1, inputs[|inputs| - 1])
    ensures ComesTo(p, d.run, a.resume.currentIndex + |inputs| - 1, inputs[|inputs| - 1], Decide(p, a, d))
  {
    ExecuteOutcome(p, d.run, a.resume.currentIndex, map[], inputs);
  }

  /** So an approval before the last agent fails exactly when some agent up to the next
      checkpoint does, on the input it gets. */
  lemma ApprovalFailsExactly(p: Pipeline, a: Approval, run: Agents)
    requires p.Valid() && Consistent(p, a) && !a.taskOutput && a.resume.currentIndex < |p.reviews| - 1
    ensures Decide(p, a, Approve(run)) == Failed <==>
              exists inputs :: FailsOnTheWay(p, a, run, inputs)
  {
    var inputs := TraceExists(p, run, a.resume.currentIndex + 1, a.resume.nextRuntimeInput);
    TraceWithin(p, run, a.resume.currentIndex + 1, inputs);
    ApprovalRunsOn(p, a, run, inputs);
    forall other | FailsOnTheWay(p, a, run, other)
      ensures Decide(p, a, Approve(run)) == Failed
    {
      ApprovalRunsOn(p, a, run, other);
    }
    if Decide(p, a, Approve(run)) == Failed {
      assert FailsOnTheWay(p, a, run, inputs);
    }
  }

  /** A trace from the next agent, with the input handed over to it, that ends in a failure. */
  predicate FailsOnTheWay(p: Pipeline, a: Approval, run: Agents, inputs: seq<Input>) {
    var idx := a.resume.currentIndex + 1;
    && idx >= 0 && Trace(p, run, idx, inputs) && inputs[0] == a.resume.nextRuntimeInput
    && idx + |inputs| - 1 < |p.reviews| && run(idx + |inputs| - 1, inputs[|inputs| - 1]).Failure?
  }
}
