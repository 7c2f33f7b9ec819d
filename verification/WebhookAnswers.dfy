/** When a webhook delivery is answered, and when it is accepted: also after another handler of
    its event died halfway. */
module WebhookAnswers {
  import opened Text
  import opened Webhook

  // -------------------------------------------------------------- own steps

  /** Steps a handler still has before it answers. */
  function StepsLeft(at: Point): nat {
    match at
    case PreCheck => 4
    case Lookup => 3
    case Create => 2
    case Insert => 1
    case Answered(_) => 0
    case Stopped => 0
  }

  predicate Takes(s: System, step: Step, id: nat) {
    step == Advance(id) && id in s.deliveries && StepsLeft(s.deliveries[id].at) > 0
  }

  /** How many steps of its own a delivery has taken. */
  function OwnSteps(backend: Backend, s: System, steps: seq<Step>, id: nat): nat
    decreases |steps|
  {
    if steps == [] then 0
    else
      var init := steps[..|steps| - 1];
      OwnSteps(backend, s, init, id) + if Takes(Run(backend, s, init), steps[|steps| - 1], id) then 1 else 0
  }

  /** Nobody else moves a delivery. */
  lemma OthersStay(backend: Backend, s: System, step: Step, id: nat)
    requires id in s.deliveries && step != Advance(id) && step != Stop(id)
    ensures id in Apply(backend, s, step).deliveries && Apply(backend, s, step).deliveries[id] == s.deliveries[id]
  {
  }

  /** A handler's own step brings it on, unless it is done. */
  lemma OwnProgress(backend: Backend, s: System, id: nat)
    requires id in s.deliveries
    ensures var d, t := s.deliveries[id], AdvanceDelivery(backend, s, id);
            && id in t.deliveries && t.deliveries[id].job == d.job && (t.deliveries[id].at.Stopped? ==> d.at.Stopped?)
            && if StepsLeft(d.at) > 0 then StepsLeft(t.deliveries[id].at) < StepsLeft(d.at) else t.deliveries[id] == d
  {
  }

  lemma StepProgress(backend: Backend, s: System, step: Step, id: nat)
    requires id in s.deliveries
    ensures var t := Apply(backend, s, step);
            && id in t.deliveries && t.deliveries[id].job == s.deliveries[id].job
            && StepsLeft(t.deliveries[id].at) + (if Takes(s, step, id) then 1 else 0) <= StepsLeft(s.deliveries[id].at)
            && (t.deliveries[id].at.Stopped? ==> s.deliveries[id].at.Stopped? || step == Stop(id))
            && (s.deliveries[id].at.Answered? ==> t.deliveries[id].at == s.deliveries[id].at)
  {
    if step == Advance(id) {
      OwnProgress(backend, s, id);
    } else if step != Stop(id) {
      OthersStay(backend, s, step, id);
    }
  }

  lemma {:induction false} OwnStepsBound(backend: Backend, tasks: map<string, RunTask>, jobs: map<nat, Job>,
      steps: seq<Step>, id: nat)
    requires id in jobs
    ensures var s0, s := Start(tasks, jobs), Run(backend, Start(tasks, jobs), steps);
            && id in s.deliveries && s.deliveries[id].job == jobs[id]
            && OwnSteps(backend, s0, steps, id) + StepsLeft(s.deliveries[id].at) <= 4
            && (s.deliveries[id].at.Stopped? ==> Stop(id) in steps)
    decreases |steps|
  {
    if steps != [] {
      var init, last := steps[..|steps| - 1], steps[|steps| - 1];
      OwnStepsBound(backend, tasks, jobs, init, id);
      StepProgress(backend, Run(backend, Start(tasks, jobs), init), last, id);
    }
  }

  /** Whatever the others do, a delivery whose handler lives is answered by its fourth step. */
  lemma DeliveriesAnswer(backend: Backend, tasks: map<string, RunTask>, jobs: map<nat, Job>, steps: seq<Step>, id: nat)
    requires id in jobs && Stop(id) !in steps
    ensures var s0, s := Start(tasks, jobs), Run(backend, Start(tasks, jobs), steps);
            && id in s.deliveries && OwnSteps(backend, s0, steps, id) <= 4
            && (OwnSteps(backend, s0, steps, id) == 4 ==> s.deliveries[id].at.Answered?)
  {
    OwnStepsBound(backend, tasks, jobs, steps, id);
  }

  // ------------------------------------------------------------------ rejections

  /** The labels of a task name another hook. */
  predicate LabelsDiffer(t: RunTask, h: Hook) {
    || !EqualFold(TrimSpace(t.hookName), TrimSpace(h.name))
    || !EqualFold(TrimSpace(t.hookNamespace), NormalizeNamespace(h.namespace))
  }

  /** At step `k` the delivery looks its key up and finds a task of another hook. */
  ghost predicate FindsForeign(backend: Backend, s0: System, job: Job, steps: seq<Step>, id: nat, k: nat) {
    && k < |steps| && steps[k] == Advance(id)
    && var s := Run(backend, s0, steps[..k]);
       && id in s.deliveries && s.deliveries[id].at == Lookup
       && job.key in s.tasks && LabelsDiffer(s.tasks[job.key], job.hook)
  }

  predicate IsRejected(s: System, id: nat) {
    id in s.deliveries && s.deliveries[id].at == Answered(Rejected)
  }

  lemma LookupRejects(backend: Backend, s: System, id: nat)
    requires id in s.deliveries
    ensures var d := s.deliveries[id];
            IsRejected(AdvanceDelivery(backend, s, id), id) <==>
              || IsRejected(s, id)
              || (d.at == Lookup && d.job.key in s.tasks && LabelsDiffer(s.tasks[d.job.key], d.job.hook))
  {
  }

  /** Only such a lookup rejects. */
  lemma StepRejects(backend: Backend, s: System, step: Step, id: nat)
    requires id in s.deliveries
    ensures var job := s.deliveries[id].job;
            IsRejected(Apply(backend, s, step), id) <==>
              || IsRejected(s, id)
              || (&& step == Advance(id) && s.deliveries[id].at == Lookup
                  && job.key in s.tasks && LabelsDiffer(s.tasks[job.key], job.hook))
  {
    if step == Advance(id) {
      LookupRejects(backend, s, id);
    } else if step != Stop(id) {
      OthersStay(backend, s, step, id);
    }
  }

  ghost predicate EverFindsForeign(backend: Backend, s0: System, job: Job, steps: seq<Step>, id: nat) {
    exists k: nat :: FindsForeign(backend, s0, job, steps, id, k)
  }

  lemma FindsSnoc(backend: Backend, s0: System, job: Job, init: seq<Step>, last: Step, id: nat)
    ensures var steps := init + [last];
            EverFindsForeign(backend, s0, job, steps, id) <==>
              || EverFindsForeign(backend, s0, job, init, id)
              || FindsForeign(backend, s0, job, steps, id, |init|)
  {
    var steps := init + [last];
    forall k: nat | k < |init|
      ensures FindsForeign(backend, s0, job, steps, id, k) <==> FindsForeign(backend, s0, job, init, id, k)
    {
      assert init[..k] == steps[..k];
    }
    if k: nat :| FindsForeign(backend, s0, job, init, id, k) {
      assert FindsForeign(backend, s0, job, steps, id, k);
    }
  }

  /** A delivery is rejected exactly when it found a task of another hook under its key. */
  lemma {:induction false} RejectedExactly(backend: Backend, tasks: map<string, RunTask>, jobs: map<nat, Job>,
      steps: seq<Step>, id: nat)
    requires id in jobs
    ensures var s0 := Start(tasks, jobs);
            IsRejected(Run(backend, s0, steps), id) <==> EverFindsForeign(backend, s0, jobs[id], steps, id)
    decreases |steps|
  {
    if steps != [] {
      var s0, init, last := Start(tasks, jobs), steps[..|steps| - 1], steps[|steps| - 1];
      assert init + [last] == steps && steps[..|init|] == init;
      RejectedExactly(backend, tasks, jobs, init, id);
      OwnStepsBound(backend, tasks, jobs, init, id);
      StepRejects(backend, Run(backend, s0, init), last, id);
      FindsSnoc(backend, s0, jobs[id], init, last, id);
    }
  }

  // ------------------------------------------------------------------ acceptance

  ghost predicate NeverRejects(backend: Backend, jobs: map<nat, Job>) {
    forall tasks: map<string, RunTask>, steps: seq<Step>, id: nat ::
      FreshKeys(tasks, jobs) && id in jobs ==> !IsRejected(Run(backend, Start(tasks, jobs), steps), id)
  }

  /** Deliveries that share a key belong to hooks with the same labels. */
  ghost predicate SharedByHook(jobs: map<nat, Job>) {
    forall i, j :: i in jobs && j in jobs && jobs[i].key == jobs[j].key ==> !LabelsDiffer(jobs[i].task, jobs[j].hook)
  }

  /** What is stored under a delivery's key has its hook's labels. */
  lemma StoredTaskOwned(s: System, tasks: map<string, RunTask>, jobs: map<nat, Job>, id: nat)
    requires Named(tasks, jobs, s) && SharedByHook(jobs) && FreshKeys(tasks, jobs) && id in jobs
              && jobs[id].key in s.tasks
    ensures !LabelsDiffer(s.tasks[jobs[id].key], jobs[id].hook)
  {
    assert SoundTask(tasks, jobs, jobs[id].key, s.tasks[jobs[id].key]);
  }

  lemma SharedNotRejected(backend: Backend, tasks: map<string, RunTask>, jobs: map<nat, Job>, steps: seq<Step>, id: nat)
    requires Coherent(jobs) && SharedByHook(jobs) && FreshKeys(tasks, jobs) && id in jobs
    ensures !IsRejected(Run(backend, Start(tasks, jobs), steps), id)
  {
    RejectedExactly(backend, tasks, jobs, steps, id);
    forall k: nat | FindsForeign(backend, Start(tasks, jobs), jobs[id], steps, id, k)
      ensures false
    {
      RunNamed(backend, tasks, jobs, steps[..k]);
      StoredTaskOwned(Run(backend, Start(tasks, jobs), steps[..k]), tasks, jobs, id);
    }
  }

  /** One delivery creates its task; another hook's delivery with that key is then refused. */
  lemma ForeignRejected(backend: Backend, tasks: map<string, RunTask>, jobs: map<nat, Job>, i: nat, j: nat)
    returns (steps: seq<Step>)
    requires i in jobs && j in jobs && jobs[i].key == jobs[j].key && FreshKeys(tasks, jobs)
    requires i != j && LabelsDiffer(jobs[i].task, jobs[j].hook)
    ensures IsRejected(Run(backend, Start(tasks, jobs), steps), j)
  {
    var s0 := Start(tasks, jobs);
    var both := PassTogetherHalf(backend, tasks, jobs, i, j);
    var s1 := Run(backend, s0, both);
    var s2 := Apply(backend, s1, Advance(i));
    var five := both + [Advance(i)];
    steps := five + [Advance(j)];
    RunSnoc(backend, s0, both, Advance(i));
    RunSnoc(backend, s0, five, Advance(j));
    assert s2.tasks == tasks[jobs[i].key := jobs[i].task] && s2.deliveries[j] == Delivery(jobs[j], Lookup);
    StepRejects(backend, s2, Advance(j), j);
  }

  /** The first is about to create while the second is about to look. */
  lemma PassTogetherHalf(backend: Backend, tasks: map<string, RunTask>, jobs: map<nat, Job>, i: nat, j: nat)
    returns (steps: seq<Step>)
    requires i in jobs && j in jobs && i != j && FreshKeys(tasks, jobs)
    ensures var s, s0 := Run(backend, Start(tasks, jobs), steps), Start(tasks, jobs);
            s == s0.(deliveries := s0.deliveries[i := Delivery(jobs[i], Create)][j := Delivery(jobs[j], Lookup)])
  {
    var s0 := Start(tasks, jobs);
    var one := [Advance(i)];
    var two := one + [Advance(j)];
    steps := two + [Advance(i)];
    RunSnoc(backend, s0, [], Advance(i));
    assert [] + [Advance(i)] == one;
    RunSnoc(backend, s0, one, Advance(j));
    RunSnoc(backend, s0, two, Advance(i));
    assert Run(backend, s0, one) == Move(s0, i, Lookup);
    assert Run(backend, s0, two) == Move(Move(s0, i, Lookup), j, Lookup);
  }

  /** A hook recognises the tasks it creates. */
  lemma OwnTaskRecognised(c: Config, r: Request)
    requires Known(c, r)
    ensures !LabelsDiffer(Plan(c, r).task, Plan(c, r).hook)
  {
    NamespaceTrimmed(Plan(c, r).hook.namespace);
  }

  lemma NamespaceTrimmed(ns: string)
    ensures TrimSpace(NormalizeNamespace(ns)) == NormalizeNamespace(ns)
  {
    if Blank(ns) {
      TrimSolid("default");
    } else {
      var lead, end := TrimExact(ns);
      TrimEnds(NormalizeNamespace(ns));
    }
  }

  /** No delivery is ever rejected, over all runs on fresh keys, exactly when the deliveries that
      share a key belong to hooks with the same labels. */
  lemma NeverRejectsExactly(c: Config, requests: map<nat, Request>)
    requires c.Valid()
    ensures NeverRejects(c.backend, Admitted(c, requests)) <==> SharedByHook(Admitted(c, requests))
  {
    var jobs := Admitted(c, requests);
    AdmittedCoherent(c, requests);
    if SharedByHook(jobs) {
      forall tasks: map<string, RunTask>, steps: seq<Step>, id: nat | FreshKeys(tasks, jobs) && id in jobs
        ensures !IsRejected(Run(c.backend, Start(tasks, jobs), steps), id)
      {
        SharedNotRejected(c.backend, tasks, jobs, steps, id);
      }
    } else {
      var i, j :| i in jobs && j in jobs && jobs[i].key == jobs[j].key && LabelsDiffer(jobs[i].task, jobs[j].hook);
      OwnTaskRecognised(c, requests[i]);
      var tasks: map<string, RunTask> := map[];
      var steps := ForeignRejected(c.backend, tasks, jobs, i, j);
    }
  }

  predicate IsAnswered(s: System, id: nat) {
    id in s.deliveries && s.deliveries[id].at.Answered?
  }

  lemma AnsweredAccepted(backend: Backend, tasks: map<string, RunTask>, jobs: map<nat, Job>, steps: seq<Step>, id: nat)
    requires Coherent(jobs) && SharedByHook(jobs) && FreshKeys(tasks, jobs) && id in jobs
    requires IsAnswered(Run(backend, Start(tasks, jobs), steps), id)
    ensures var s := Run(backend, Start(tasks, jobs), steps);
            Accepts(s, id) && AnswerTask(s, id) == jobs[id].key && jobs[id].key in s.tasks
  {
    SharedNotRejected(backend, tasks, jobs, steps, id);
    RunNamed(backend, tasks, jobs, steps);
    NotRejectedAccepted(Run(backend, Start(tasks, jobs), steps), tasks, jobs, id);
  }

  lemma NotRejectedAccepted(s: System, tasks: map<string, RunTask>, jobs: map<nat, Job>, id: nat)
    requires Named(tasks, jobs, s) && id in jobs && IsAnswered(s, id) && !IsRejected(s, id)
    ensures Accepts(s, id) && AnswerTask(s, id) == jobs[id].key && jobs[id].key in s.tasks
  {
    assert SoundDelivery(s, jobs[id], s.deliveries[id]);
  }

  /** Deliveries to one hook: whoever has taken its steps is accepted, under the key of its
      event. So when a handler dies between creating its task and the dedupe insert, a later
      delivery of the event is accepted and names that task. */
  lemma LaterDeliveryAccepted(c: Config, tasks: map<string, RunTask>, requests: map<nat, Request>, steps: seq<Step>,
      endpoint: string, dead: nat, later: nat)
    requires c.Valid() && FreshKeys(tasks, Admitted(c, requests)) && Stop(later) !in steps
    requires forall id :: id in requests && Known(c, requests[id]) ==> TrimSpace(requests[id].endpoint) == endpoint
    requires dead in Admitted(c, requests) && later in Admitted(c, requests)
    requires Admitted(c, requests)[dead].event == Admitted(c, requests)[later].event
    requires OwnSteps(c.backend, Start(tasks, Admitted(c, requests)), steps, later) == 4
             || IsAnswered(RunRequests(c, tasks, requests, steps), later)
    ensures var s, key := RunRequests(c, tasks, requests, steps), Admitted(c, requests)[dead].key;
            Accepts(s, later) && AnswerTask(s, later) == key && key in s.tasks
  {
    var jobs := Admitted(c, requests);
    AdmittedCoherent(c, requests);
    OneHookShares(c, requests, endpoint);
    DeliveriesAnswer(c.backend, tasks, jobs, steps, later);
    AnsweredAccepted(c.backend, tasks, jobs, steps, later);
  }

  lemma OneHookShares(c: Config, requests: map<nat, Request>, endpoint: string)
    requires forall id :: id in requests && Known(c, requests[id]) ==> TrimSpace(requests[id].endpoint) == endpoint
    ensures SharedByHook(Admitted(c, requests))
  {
    var jobs := Admitted(c, requests);
    forall i, j | i in jobs && j in jobs
      ensures !LabelsDiffer(jobs[i].task, jobs[j].hook)
    {
      OwnTaskRecognised(c, requests[i]);
      assert jobs[i].hook == jobs[j].hook;
    }
  }
}
