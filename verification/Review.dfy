/** The sequential review loop of a task: agents run in order, pause at review checkpoints,
    and resume from the decision on the approval. */
module Review {
  import opened Text

  type Input = map<string, string>

  /** An agent run either fails or hands on values for the next agent's input. */
  datatype Outcome = Failure | Output(handoff: Input)

  /** What the agent at a position does with its input. */
  type Agents = (nat, Input) -> Outcome

  datatype Checkpoint = Checkpoint(id: string, allowRequestChanges: Option<bool>, maxReviewCycles: int) {
    predicate AllowsRequestChanges() {
      allowRequestChanges.None? || allowRequestChanges.value
    }

    function MaxCycles(): (n: int)
      ensures n > 0
    {
      if maxReviewCycles <= 0 then 3 else maxReviewCycles
    }
  }

  /** Checkpoints by position in the execution order, and the one on the whole output. */
  datatype Pipeline = Pipeline(reviews: seq<Option<Checkpoint>>, completion: Option<Checkpoint>) {
    predicate Valid() {
      && reviews != []
      && (forall r :: r in reviews && r.Some? ==> r.value.maxReviewCycles <= MAX_INT)
      && (completion.Some? ==> completion.value.maxReviewCycles <= MAX_INT)
    }
  }

  datatype Resume = Resume(runtimeInput: Input, nextRuntimeInput: Input, currentIndex: int, nextIndex: int)

  datatype Approval = Approval(checkpoint: Checkpoint, taskOutput: bool, cycle: int, supersedes: string, resume: Resume)

  datatype State = Waiting(approval: Approval) | Succeeded | Failed

  const REVIEW_KEYS: set<string> := {
    "review.feedback", "review.previous_output", "review.checkpoint_id",
    "review.cycle", "review.requested_by", "review.supersedes" }

  const HANDOFF_KEYS: set<string> := {
    "previous_agent", "previous_agent_last_event", "inbox.from", "inbox.to", "inbox.content",
    "inbox.message_id", "inbox.trace_id", "inbox.branch_id", "inbox.parent_branch_id" }

  function ReviewCycleFromInput(input: Input): (cycle: int)
    ensures 1 <= cycle <= MAX_INT
  {
    if "review.cycle" !in input then 1
    else
      match Atoi(TrimSpace(input["review.cycle"]))
      case None => 1
      case Some(n) => if n > 0 then n else 1
  }

  function SupersedesFromInput(input: Input): string {
    if "review.supersedes" in input then TrimSpace(input["review.supersedes"]) else ""
  }

  /** A cycle written into an input reads back; an input without one is at cycle 1. */
  lemma ReviewCycleExact(input: Input, n: int)
    requires 1 <= n <= MAX_INT
    ensures "review.cycle" in input && input["review.cycle"] == Itoa(n) ==> ReviewCycleFromInput(input) == n
    ensures "review.cycle" !in input ==> ReviewCycleFromInput(input) == 1
  {
    AtoiItoa(n);
    TrimSolid(Itoa(n));
  }

  /** The next agent's input: review keys erased, hand-over keys set. */
  function NextInput(input: Input, handoff: Input): Input {
    (input - REVIEW_KEYS) + map k | k in handoff && k in HANDOFF_KEYS :: handoff[k]
  }

  function PauseAt(c: Checkpoint, input: Input, next: Input, idx: int): State {
    Waiting(Approval(c, false, ReviewCycleFromInput(input), SupersedesFromInput(input),
        Resume(input, next, idx, idx + 1)))
  }

  function Finish(p: Pipeline, lastInput: Input, input: Input): State {
    match p.completion
    case None => Succeeded
    case Some(c) =>
      var completionInput := if |lastInput| > 0 then lastInput else input;
      Waiting(Approval(c, true, ReviewCycleFromInput(completionInput), SupersedesFromInput(completionInput),
                       Resume(completionInput, completionInput, |p.reviews| - 1, |p.reviews|)))
  }

  /** Running the agents from position `idx` on. */
  function Execute(p: Pipeline, run: Agents, idx: nat, lastInput: Input, input: Input): State
    requires idx <= |p.reviews|
    decreases |p.reviews| - idx
  {
    if idx == |p.reviews| then Finish(p, lastInput, input)
    else
      match run(idx, input)
      case Failure => Failed
      case Output(handoff) =>
        var next := NextInput(input, handoff);
        match p.reviews[idx]
        case Some(c) => PauseAt(c, input, next, idx)
        case None => Execute(p, run, idx + 1, input, next)
  }

  /** The agent loop. */
  method ExecuteFrom(p: Pipeline, run: Agents, startIndex: nat, runtimeInput: Input) returns (s: State)
    requires startIndex <= |p.reviews|
    ensures s == Execute(p, run, startIndex, map[], runtimeInput)
  {
    var input := runtimeInput;
    var lastInput: Input := map[];
    for idx := startIndex to |p.reviews|
      invariant Execute(p, run, idx, lastInput, input) == Execute(p, run, startIndex, map[], runtimeInput)
    {
      lastInput := input;
      var result := run(idx, input);
      if result.Failure? {
        return Failed;
      }
      var next := NextInput(input, result.handoff);
      if p.reviews[idx].Some? {
        return PauseAt(p.reviews[idx].value, input, next, idx);
      }
      input := next;
    }
    return Finish(p, lastInput, input);
  }

  datatype Decision =
    | Approve(run: Agents)
    | RequestChanges(comment: string, decidedBy: string, previousOutput: string, run: Agents)
    | Deny
    | Expire

  /** An approved last agent may still owe the review of the whole output. */
  predicate OwesCompletionReview(p: Pipeline, a: Approval) {
    && !a.taskOutput && p.completion.Some?
    && !EqualFold(TrimSpace(a.checkpoint.id), TrimSpace(p.completion.value.id))
  }

  /** Approvals are named by checkpoint and cycle; the text stands for the source's hash. */
  function ApprovalName(checkpointId: string, cycle: int): string {
    TrimSpace(checkpointId) + "/" + Itoa(cycle)
  }

  function FeedbackInput(a: Approval, d: Decision): Input
    requires d.RequestChanges?
  {
    a.resume.runtimeInput + map[
      "review.feedback" := TrimSpace(d.comment),
      "review.previous_output" := d.previousOutput,
      "review.checkpoint_id" := TrimSpace(a.checkpoint.id),
      "review.cycle" := Itoa(a.cycle + 1),
      "review.requested_by" := TrimSpace(d.decidedBy),
      "review.supersedes" := TrimSpace(ApprovalName(a.checkpoint.id, a.cycle))]
  }

  function FromIndex(p: Pipeline, i: int): (n: nat)
    requires i <= |p.reviews|
    ensures n <= |p.reviews|
  {
    if i < 0 then 0 else i
  }

  function Decide(p: Pipeline, a: Approval, d: Decision): State {
    match d
    case Deny => Failed
    case Expire => Failed
    case Approve(run) =>
      if a.resume.nextIndex >= |p.reviews| then
        if OwesCompletionReview(p, a)
        then Waiting(Approval(p.completion.value, true, 1, "", Resume(map[], map[], 0, 0)))
        else Succeeded
      else Execute(p, run, FromIndex(p, a.resume.nextIndex), map[], a.resume.nextRuntimeInput)
    case RequestChanges(_, _, _, run) =>
      if !a.checkpoint.AllowsRequestChanges() || a.cycle >= a.checkpoint.MaxCycles() then Failed
      else if a.resume.currentIndex >= |p.reviews| then Succeeded
      else Execute(p, run, FromIndex(p, a.resume.currentIndex), map[], FeedbackInput(a, d))
  }

  function Run(p: Pipeline, s: State, ds: seq<Decision>): State
    decreases |ds|
  {
    if ds == [] || !s.Waiting? then s
    else Run(p, Decide(p, s.approval, ds[0]), ds[1..])
  }

  // ------------------------------------------------------------------ invariant

  /** The one configuration whose approvals do not advance: the last agent has its own
      review and the whole output has another. */
  predicate DoubleFinalReview(p: Pipeline)
    requires p.Valid()
  {
    var last := p.reviews[|p.reviews| - 1];
    last.Some? && p.completion.Some? && !EqualFold(TrimSpace(last.value.id), TrimSpace(p.completion.value.id))
  }

  /** Stages are the agent positions, then the review of the whole output. */
  function Stage(p: Pipeline, a: Approval): int {
    if a.taskOutput then |p.reviews| else a.resume.currentIndex
  }

  function StageCheckpoint(p: Pipeline, k: nat): Option<Checkpoint>
    requires k <= |p.reviews|
  {
    if k < |p.reviews| then p.reviews[k] else p.completion
  }

  ghost predicate Consistent(p: Pipeline, a: Approval)
    requires p.Valid()
  {
    var k := Stage(p, a);
    && 0 <= k <= |p.reviews| && StageCheckpoint(p, k) == Some(a.checkpoint)
    && 1 <= a.cycle
    && a.resume.nextIndex == a.resume.currentIndex + 1
    && a.resume.currentIndex == (if a.taskOutput then |p.reviews| - 1 else k)
    && (a.taskOutput ==> p.reviews[|p.reviews| - 1].None?)
    && (!a.taskOutput ==> k < |p.reviews| && "review.cycle" !in a.resume.nextRuntimeInput)
  }

  ghost predicate ConsistentState(p: Pipeline, s: State)
    requires p.Valid()
  {
    s.Waiting? ==> Consistent(p, s.approval)
  }

  lemma HandoffErasesReview(input: Input, handoff: Input)
    ensures "review.cycle" !in NextInput(input, handoff)
  {
    assert "review.cycle"[0] == 'r';
    assert forall k :: k in HANDOFF_KEYS ==> k[0] != 'r';
  }

  /** Running on from a position pauses at a later stage, at cycle 1 unless it is the
      very position resumed. */
  lemma {:induction false} ExecuteConsistent(p: Pipeline, run: Agents, idx: nat, lastInput: Input, input: Input)
    requires p.Valid() && idx <= |p.reviews|
    requires idx == |p.reviews| ==> p.reviews[|p.reviews| - 1].None?
    ensures var s := Execute(p, run, idx, lastInput, input);
            ConsistentState(p, s) && (s.Waiting? ==> Stage(p, s.approval) >= idx)
    ensures var s := Execute(p, run, idx, lastInput, input);
            "review.cycle" !in input && "review.cycle" !in lastInput && s.Waiting? ==> s.approval.cycle == 1
    decreases |p.reviews| - idx
  {
    if idx == |p.reviews| {
      FinishConsistent(p, lastInput, input);
    } else if run(idx, input).Output? {
      var next := NextInput(input, run(idx, input).handoff);
      HandoffErasesReview(input, run(idx, input).handoff);
      match p.reviews[idx]
      case Some(c) => PauseConsistent(p, c, input, next, idx);
      case None => ExecuteConsistent(p, run, idx + 1, input, next);
    }
  }

  lemma FinishConsistent(p: Pipeline, lastInput: Input, input: Input)
    requires p.Valid() && p.reviews[|p.reviews| - 1].None?
    ensures var s := Finish(p, lastInput, input);
            ConsistentState(p, s) && (s.Waiting? ==> Stage(p, s.approval) == |p.reviews|)
    ensures var s := Finish(p, lastInput, input);
            "review.cycle" !in input && "review.cycle" !in lastInput && s.Waiting? ==> s.approval.cycle == 1
  {
  }

  lemma PauseConsistent(p: Pipeline, c: Checkpoint, input: Input, next: Input, idx: nat)
    requires p.Valid() && idx < |p.reviews| && p.reviews[idx] == Some(c) && "review.cycle" !in next
    ensures var s := PauseAt(c, input, next, idx);
            ConsistentState(p, s) && Stage(p, s.approval) == idx
            && ("review.cycle" !in input ==> s.approval.cycle == 1)
  {
  }

  lemma ApprovalNameTrimmed(checkpointId: string, cycle: int)
    requires 0 <= cycle <= MAX_INT
    ensures TrimSpace(ApprovalName(checkpointId, cycle)) == ApprovalName(checkpointId, cycle)
  {
    var name, digits := ApprovalName(checkpointId, cycle), Itoa(cycle);
    var lead, end := TrimExact(checkpointId);
    AtoiItoa(cycle);
    assert digits[|digits| - 1] in digits && name[|name| - 1] == digits[|digits| - 1];
    TrimEnds(name);
  }

  /** The input of a request for changes carries the next cycle and the approval it replaces. */
  lemma FeedbackRaisesCycle(p: Pipeline, a: Approval, d: Decision)
    requires p.Valid() && Consistent(p, a) && d.RequestChanges? && a.cycle < MAX_INT
    ensures ReviewCycleFromInput(FeedbackInput(a, d)) == a.cycle + 1 && |FeedbackInput(a, d)| > 0
    ensures SupersedesFromInput(FeedbackInput(a, d)) == ApprovalName(a.checkpoint.id, a.cycle)
  {
    var input := FeedbackInput(a, d);
    ReviewCycleExact(input, a.cycle + 1);
    ApprovalNameTrimmed(a.checkpoint.id, a.cycle);
    assert "review.cycle" in input;
  }

  /** An approval moves on to a later stage at cycle 1, or ends the task. */
  lemma ApproveAdvances(p: Pipeline, a: Approval, run: Agents)
    requires p.Valid() && !DoubleFinalReview(p) && Consistent(p, a)
    ensures var s := Decide(p, a, Approve(run));
            ConsistentState(p, s) &&
            (s.Waiting? ==> Stage(p, s.approval) > Stage(p, a) && s.approval.cycle == 1)
  {
    if a.resume.nextIndex < |p.reviews| {
      ExecuteConsistent(p, run, a.resume.nextIndex, map[], a.resume.nextRuntimeInput);
    }
  }

  /** Running again from an approval's own position pauses at the same stage, at the cycle
      its input carries. */
  lemma RerunPausesAgain(p: Pipeline, a: Approval, run: Agents, input: Input)
    requires p.Valid() && Consistent(p, a) && |input| > 0
    ensures var s := Execute(p, run, a.resume.currentIndex, map[], input);
            ConsistentState(p, s) &&
            (s.Waiting? ==> Stage(p, s.approval) == Stage(p, a) && s.approval.cycle == ReviewCycleFromInput(input)
                            && s.approval.supersedes == SupersedesFromInput(input))
  {
    var k := a.resume.currentIndex;
    ExecuteConsistent(p, run, k, map[], input);
    if a.taskOutput && run(k, input).Output? {
      assert Execute(p, run, k, map[], input) == Finish(p, input, NextInput(input, run(k, input).handoff));
    }
  }

  lemma ChangesRerun(p: Pipeline, a: Approval, d: Decision, input: Input)
    requires p.Valid() && Consistent(p, a) && d.RequestChanges? && input == FeedbackInput(a, d) && |input| > 0
    requires a.checkpoint.AllowsRequestChanges() && a.cycle < a.checkpoint.MaxCycles()
    ensures var s := Decide(p, a, d);
            ConsistentState(p, s) &&
            (s.Waiting? ==> Stage(p, s.approval) == Stage(p, a) && s.approval.cycle == ReviewCycleFromInput(input)
                            && s.approval.supersedes == SupersedesFromInput(input))
  {
    RerunPausesAgain(p, a, d.run, input);
  }

  lemma CycleLimitFits(p: Pipeline, a: Approval)
    requires p.Valid() && Consistent(p, a)
    ensures a.checkpoint.MaxCycles() <= MAX_INT
  {
  }

  /** A request for changes stays at its stage and raises the cycle, up to the limit; the new
      approval names the one it replaces. */
  lemma RequestChangesRaisesCycle(p: Pipeline, a: Approval, d: Decision)
    requires p.Valid() && Consistent(p, a) && d.RequestChanges?
    ensures var s := Decide(p, a, d);
            ConsistentState(p, s) &&
            (s.Waiting? ==> Stage(p, s.approval) == Stage(p, a) && s.approval.cycle == a.cycle + 1
                            && s.approval.cycle <= a.checkpoint.MaxCycles()
                            && s.approval.supersedes == ApprovalName(a.checkpoint.id, a.cycle))
  {
    if a.checkpoint.AllowsRequestChanges() && a.cycle < a.checkpoint.MaxCycles() {
      CycleLimitFits(p, a);
      FeedbackRaisesCycle(p, a, d);
      ChangesRerun(p, a, d, FeedbackInput(a, d));
    }
  }

  // ---------------------------------------------------------------- termination

  /** Review cycles available at the stages from `k` on. */
  function Budget(p: Pipeline, k: nat): nat
    requires k <= |p.reviews| + 1
    decreases |p.reviews| + 1 - k
  {
    if k == |p.reviews| + 1 then 0
    else
      (match StageCheckpoint(p, k) case None => 0 case Some(c) => c.MaxCycles()) + Budget(p, k + 1)
  }

  lemma {:induction false} BudgetMonotone(p: Pipeline, j: nat, k: nat)
    requires j <= k <= |p.reviews| + 1
    ensures Budget(p, k) <= Budget(p, j)
    decreases k - j
  {
    if j < k {
      BudgetMonotone(p, j + 1, k);
    }
  }

  /** Decisions a waiting task can still take: cycles left here plus those of later stages. */
  function DecisionsLeft(p: Pipeline, s: State): int
    requires p.Valid()
  {
    if !s.Waiting? || !(0 <= Stage(p, s.approval) <= |p.reviews|) then 0
    else
      var a := s.approval;
      var max := a.checkpoint.MaxCycles();
      (if a.cycle < max then max - a.cycle else 0) + Budget(p, Stage(p, a) + 1) + 1
  }

  lemma ApproveDecreases(p: Pipeline, a: Approval, run: Agents)
    requires p.Valid() && !DoubleFinalReview(p) && Consistent(p, a)
    ensures var s := Decide(p, a, Approve(run));
            ConsistentState(p, s) && 0 <= DecisionsLeft(p, s) < DecisionsLeft(p, Waiting(a))
  {
    ApproveAdvances(p, a, run);
    LaterStageDecreases(p, a, Decide(p, a, Approve(run)));
  }

  lemma LaterStageDecreases(p: Pipeline, a: Approval, s: State)
    requires p.Valid() && Consistent(p, a) && ConsistentState(p, s)
    requires s.Waiting? ==> Stage(p, s.approval) > Stage(p, a)
    ensures 0 <= DecisionsLeft(p, s) < DecisionsLeft(p, Waiting(a))
  {
    if s.Waiting? {
      BudgetMonotone(p, Stage(p, a) + 1, Stage(p, s.approval));
    }
  }

  lemma SameStageDecreases(p: Pipeline, a: Approval, s: State)
    requires p.Valid() && Consistent(p, a) && ConsistentState(p, s)
    requires s.Waiting? ==> Stage(p, s.approval) == Stage(p, a)
    requires s.Waiting? ==> a.cycle < s.approval.cycle <= a.checkpoint.MaxCycles()
    ensures 0 <= DecisionsLeft(p, s) < DecisionsLeft(p, Waiting(a))
  {
  }

  /** Every decision strictly lowers the number of decisions left. */
  lemma DecisionDecreases(p: Pipeline, a: Approval, d: Decision)
    requires p.Valid() && !DoubleFinalReview(p) && Consistent(p, a)
    ensures var s := Decide(p, a, d);
            ConsistentState(p, s) && 0 <= DecisionsLeft(p, s) < DecisionsLeft(p, Waiting(a))
  {
    if d.Approve? {
      ApproveDecreases(p, a, d.run);
    } else if d.RequestChanges? {
      RequestChangesRaisesCycle(p, a, d);
      SameStageDecreases(p, a, Decide(p, a, d));
    }
  }

  lemma {:induction false} RunEnds(p: Pipeline, s: State, ds: seq<Decision>)
    requires p.Valid() && !DoubleFinalReview(p) && ConsistentState(p, s)
    requires |ds| >= DecisionsLeft(p, s)
    ensures !Run(p, s, ds).Waiting?
    decreases |ds|
  {
    if s.Waiting? {
      DecisionDecreases(p, s.approval, ds[0]);
      RunEnds(p, Decide(p, s.approval, ds[0]), ds[1..]);
    }
  }

  /** From the start, the review cycles of all checkpoints bound the decisions. */
  lemma ReviewEnds(p: Pipeline, run: Agents, input: Input, ds: seq<Decision>)
    requires p.Valid() && !DoubleFinalReview(p) && |ds| >= Budget(p, 0)
    ensures !Run(p, Execute(p, run, 0, map[], input), ds).Waiting?
  {
    ExecuteConsistent(p, run, 0, map[], input);
    WithinBudget(p, Execute(p, run, 0, map[], input));
    RunEnds(p, Execute(p, run, 0, map[], input), ds);
  }

  lemma WithinBudget(p: Pipeline, s: State)
    requires p.Valid() && ConsistentState(p, s)
    ensures DecisionsLeft(p, s) <= Budget(p, 0)
  {
    if s.Waiting? {
      BudgetMonotone(p, 0, Stage(p, s.approval));
    }
  }

  // ---------------------------------------------------- the looping configuration

  /** All agents succeed with nothing to hand over. */
  function Quiet(): Agents {
    (_: nat, _: Input) => Output(map[])
  }

  function Approvals(n: nat): seq<Decision> {
    seq(n, _ => Approve(Quiet()))
  }

  /** With a reviewed last agent a run never gets past it without pausing. */
  lemma {:induction false} LastReviewPauses(p: Pipeline, idx: nat, lastInput: Input, input: Input)
    requires p.Valid() && p.reviews[|p.reviews| - 1].Some? && idx < |p.reviews|
    ensures var s := Execute(p, Quiet(), idx, lastInput, input);
            s.Waiting? && Looping(p, s.approval)
    decreases |p.reviews| - idx
  {
    if p.reviews[idx].None? {
      LastReviewPauses(p, idx + 1, input, NextInput(input, map[]));
    }
  }

  ghost predicate Looping(p: Pipeline, a: Approval)
    requires p.Valid()
  {
    && 0 <= a.resume.nextIndex <= |p.reviews|
    && (a.resume.nextIndex == |p.reviews| ==>
          !a.taskOutput && p.reviews[|p.reviews| - 1] == Some(a.checkpoint))
  }

  lemma {:induction false} ApprovalsLoop(p: Pipeline, a: Approval, n: nat)
    requires p.Valid() && DoubleFinalReview(p) && Looping(p, a)
    ensures Run(p, Waiting(a), Approvals(n)).Waiting?
    decreases n
  {
    if n > 0 {
      var s := Decide(p, a, Approve(Quiet()));
      if a.resume.nextIndex < |p.reviews| {
        LastReviewPauses(p, a.resume.nextIndex, map[], a.resume.nextRuntimeInput);
      }
      assert Approvals(n)[1..] == Approvals(n - 1);
      assert Approvals(n)[0] == Approve(Quiet());
      ApprovalsLoop(p, s.approval, n - 1);
    }
  }

  /** Some number of decisions always suffices. */
  ghost predicate AlwaysEnds(p: Pipeline) {
    exists bound: nat :: EndsWithin(p, bound)
  }

  ghost predicate EndsWithin(p: Pipeline, bound: nat) {
    forall run: Agents, input: Input, ds: seq<Decision> ::
      |ds| >= bound ==> !Run(p, Execute(p, run, 0, map[], input), ds).Waiting?
  }

  /** Review always ends exactly when the last agent and the whole output are not both
      reviewed under different checkpoints. */
  lemma AlwaysEndsExactly(p: Pipeline)
    requires p.Valid()
    ensures AlwaysEnds(p) <==> !DoubleFinalReview(p)
  {
    if DoubleFinalReview(p) {
      forall bound: nat
        ensures !EndsWithin(p, bound)
      {
        LastReviewPauses(p, 0, map[], map[]);
        var s := Execute(p, Quiet(), 0, map[], map[]);
        ApprovalsLoop(p, s.approval, bound);
        assert Run(p, s, Approvals(bound)).Waiting?;
      }
    } else {
      forall run: Agents, input: Input, ds: seq<Decision> | |ds| >= Budget(p, 0)
        ensures !Run(p, Execute(p, run, 0, map[], input), ds).Waiting?
      {
        ReviewEnds(p, run, input, ds);
      }
      assert EndsWithin(p, Budget(p, 0));
    }
  }
}
