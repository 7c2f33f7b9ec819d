/** One pass of the task scheduler: pending tasks are placed on the least loaded worker that
    fits and has room. */
module Placement {
  import opened Text

  datatype Worker = Worker(maxConcurrentTasks: int, currentTasks: int, region: string, gpu: bool, models: seq<string>)

  /** `pending` says whether the task is up for scheduling in this pass. */
  datatype Task = Task(name: string, assignedWorker: string, pending: bool, region: string, gpu: bool, model: string)

  type Workers = map<string, Worker>
  type Counts = map<string, nat>

  function Cap(w: Worker): int {
    if w.maxConcurrentTasks <= 0 then 1 else w.maxConcurrentTasks
  }

  function Given(counts: Counts, name: string): nat {
    if name in counts then counts[name] else 0
  }

  predicate ContainsFold(values: seq<string>, needle: string) {
    exists i :: 0 <= i < |values| && EqualFold(TrimSpace(values[i]), TrimSpace(needle))
  }

  predicate Fits(t: Task, w: Worker) {
    && (!Blank(t.region) ==> EqualFold(TrimSpace(t.region), TrimSpace(w.region)))
    && (t.gpu ==> w.gpu)
    && (!Blank(t.model) && w.models != [] ==> ContainsFold(w.models, t.model))
  }

  function Load(workers: Workers, counts: Counts, name: string): int
    requires name in workers
  {
    workers[name].currentTasks + Given(counts, name)
  }

  /** A worker that could take the task now. */
  predicate Candidate(t: Task, workers: Workers, counts: Counts, name: string) {
    name in workers && name != "" && Fits(t, workers[name]) && Load(workers, counts, name) < Cap(workers[name])
  }

  /** The least loaded candidate, the first by name among equals; none if there is none. */
  ghost predicate Chosen(t: Task, workers: Workers, counts: Counts, choice: Option<string>) {
    match choice
    case None => forall n :: !Candidate(t, workers, counts, n)
    case Some(best) =>
      && Candidate(t, workers, counts, best)
      && forall n :: Candidate(t, workers, counts, n) && n != best ==>
           Load(workers, counts, best) < Load(workers, counts, n)
           || (Load(workers, counts, best) == Load(workers, counts, n) && Less(best, n))
  }

  predicate Sorted(names: seq<string>) {
    forall i, j :: 0 <= i < j < |names| ==> Less(names[i], names[j])
  }

  method LeastName(names: set<string>) returns (least: string)
    requires names != {}
    ensures least in names && forall n :: n in names && n != least ==> Less(least, n)
  {
    least :| least in names;
    var rest := names - {least};
    while rest != {}
      invariant rest <= names && least in names && least !in rest
      invariant forall n :: n in names - rest && n != least ==> Less(least, n)
      decreases rest
    {
      var n :| n in rest;
      rest := rest - {n};
      LessTotal(n, least);
      if Less(n, least) {
        forall m | m in names - rest && m != n && m != least
          ensures Less(n, m)
        {
          LessTransitive(n, least, m);
        }
        least := n;
      }
    }
  }

  method SortNames(names: set<string>) returns (sorted: seq<string>)
    ensures Sorted(sorted) && forall n :: n in sorted <==> n in names
  {
    sorted := [];
    var rest := names;
    while rest != {}
      invariant rest <= names && Sorted(sorted)
      invariant forall n :: n in sorted <==> n in names && n !in rest
      invariant forall n, m :: n in sorted && m in rest ==> Less(n, m)
      decreases rest
    {
      var least := LeastName(rest);
      sorted := sorted + [least];
      rest := rest - {least};
    }
  }

  /** Best among the first `k` sorted names. */
  ghost predicate BestSoFar(t: Task, workers: Workers, counts: Counts, names: seq<string>, k: nat, selected: string,
      load: int)
    requires k <= |names|
  {
    if selected == "" then forall i :: 0 <= i < k ==> !Candidate(t, workers, counts, names[i])
    else
      && selected in names[..k] && Candidate(t, workers, counts, selected) && load == Load(workers, counts, selected)
      && forall i :: 0 <= i < k && Candidate(t, workers, counts, names[i]) && names[i] != selected ==>
           load < Load(workers, counts, names[i])
               || (load == Load(workers, counts, names[i]) && Less(selected, names[i]))
  }

  /** Whether the running choice moves on to `name`. */
  predicate Improves(t: Task, workers: Workers, counts: Counts, name: string, selected: string, selectedLoad: int)
    requires name in workers
  {
    var load := Load(workers, counts, name);
    Fits(t, workers[name]) && load < Cap(workers[name]) && (selected == "" || load < selectedLoad)
  }

  lemma NextName(t: Task, workers: Workers, counts: Counts, names: seq<string>, k: nat, selected: string, load: int)
    requires k < |names| && Sorted(names) && names[k] in workers
    requires BestSoFar(t, workers, counts, names, k, selected, load)
    ensures if Improves(t, workers, counts, names[k], selected, load)
            then BestSoFar(t, workers, counts, names, k + 1, names[k], Load(workers, counts, names[k]))
            else BestSoFar(t, workers, counts, names, k + 1, selected, load)
  {
    assert names[..k + 1] == names[..k] + [names[k]];
    assert selected in names[..k] ==> Less(selected, names[k]);
  }

  method SelectWorker(t: Task, workers: Workers, counts: Counts) returns (choice: Option<string>)
    ensures Chosen(t, workers, counts, choice)
  {
    var names := SortNames(workers.Keys);
    var selected, selectedLoad := "", 0;
    var k := 0;
    while k < |names|
      invariant 0 <= k <= |names| && BestSoFar(t, workers, counts, names, k, selected, selectedLoad)
    {
      var name := names[k];
      assert name in workers.Keys;
      NextName(t, workers, counts, names, k, selected, selectedLoad);
      if Improves(t, workers, counts, name, selected, selectedLoad) {
        selected, selectedLoad := name, Load(workers, counts, name);
      }
      k := k + 1;
    }
    assert forall n :: Candidate(t, workers, counts, n) ==> n in names;
    return if selected == "" then None else Some(selected);
  }

  // ----------------------------------------------------------------------- pass

  /** A placement that still stands: an eligible worker that still fits. */
  predicate Settled(t: Task, workers: Workers) {
    var current := TrimSpace(t.assignedWorker);
    !t.pending || (current != "" && current in workers && Fits(t, workers[current]))
  }

  /** What the pass does with one task. */
  ghost predicate Placed(t: Task, t': Task, workers: Workers, counts: Counts, counts': Counts) {
    if Settled(t, workers) then t' == t && counts' == counts
    else
      exists choice :: Chosen(t, workers, counts, choice) &&
        match choice
        case None => counts' == counts && t' == (if Blank(t.assignedWorker) then t else t.(assignedWorker := ""))
        case Some(n) => t' == t.(assignedWorker := n) && counts' == counts[n := Given(counts, n) + 1]
  }

  method ReconcileTaskAssignment(t: Task, workers: Workers, counts: Counts) returns (t': Task, counts': Counts)
    ensures Placed(t, t', workers, counts, counts')
  {
    t', counts' := t, counts;
    if !t.pending {
      return;
    }
    var current := TrimSpace(t.assignedWorker);
    if current != "" {
      if current in workers && Fits(t, workers[current]) {
        return;
      }
      t' := t'.(assignedWorker := "");
    }
    var choice := SelectWorker(t, workers, counts);
    if choice.None? {
      return;
    }
    t' := t'.(assignedWorker := choice.value);
    counts' := counts[choice.value := Given(counts, choice.value) + 1];
  }

  /** A whole pass: `trace[i]` are the counts before task i. */
  ghost predicate Pass(tasks: seq<Task>, placed: seq<Task>, workers: Workers, trace: seq<Counts>) {
    && |placed| == |tasks| && |trace| == |tasks| + 1 && trace[0] == map[]
    && forall i :: 0 <= i < |tasks| ==> Placed(tasks[i], placed[i], workers, trace[i], trace[i + 1])
  }

  /** The scheduler's loop; with no eligible worker it leaves every task as it is. */
  method ReconcileOnce(tasks: seq<Task>, workers: Workers) returns (placed: seq<Task>, counts: Counts,
      ghost trace: seq<Counts>)
    ensures workers == map[] ==> placed == tasks && counts == map[]
    ensures workers != map[] ==> Pass(tasks, placed, workers, trace) && counts == trace[|tasks|]
  {
    placed, counts, trace := [], map[], [map[]];
    if workers == map[] {
      return tasks, counts, trace;
    }
    var i := 0;
    while i < |tasks|
      invariant 0 <= i <= |tasks| && Pass(tasks[..i], placed, workers, trace) && counts == trace[i]
    {
      var t;
      t, counts := ReconcileTaskAssignment(tasks[i], workers, counts);
      ExtendPass(tasks, i, placed, workers, trace, t, counts);
      placed := placed + [t];
      trace := trace + [counts];
      i := i + 1;
    }
    assert tasks[..i] == tasks;
  }

  lemma ExtendPass(tasks: seq<Task>, i: nat, placed: seq<Task>, workers: Workers, trace: seq<Counts>, t: Task,
      counts: Counts)
    requires i < |tasks| && Pass(tasks[..i], placed, workers, trace)
    requires Placed(tasks[i], t, workers, trace[i], counts)
    ensures Pass(tasks[..i + 1], placed + [t], workers, trace + [counts])
  {
  }

  /** One task changes one count by at most one, within the worker's room. */
  lemma PlacedCounts(t: Task, t': Task, workers: Workers, counts: Counts, counts': Counts)
    requires Placed(t, t', workers, counts, counts')
    ensures counts' == counts || (counts' == counts[t'.assignedWorker := Given(counts, t'.assignedWorker) + 1]
                                  && Candidate(t, workers, counts, t'.assignedWorker)
                                  && Chosen(t, workers, counts, Some(t'.assignedWorker)))
  {
  }

  ghost predicate WithinCaps(workers: Workers, counts: Counts) {
    forall n :: Given(counts, n) > 0 ==> n in workers && Load(workers, counts, n) <= Cap(workers[n])
  }

  lemma {:induction false} CountsWithinCaps(tasks: seq<Task>, placed: seq<Task>, workers: Workers,
      trace: seq<Counts>, k: nat)
    requires Pass(tasks, placed, workers, trace) && k <= |tasks|
    ensures WithinCaps(workers, trace[k])
    decreases k
  {
    if k > 0 {
      CountsWithinCaps(tasks, placed, workers, trace, k - 1);
      PlacedCounts(tasks[k - 1], placed[k - 1], workers, trace[k - 1], trace[k - 1 + 1]);
    }
  }

  /** Counts only grow. */
  lemma {:induction false} CountsGrow(tasks: seq<Task>, placed: seq<Task>, workers: Workers, trace: seq<Counts>,
      i: nat, k: nat, n: string)
    requires Pass(tasks, placed, workers, trace) && i <= k <= |tasks|
    ensures Given(trace[i], n) <= Given(trace[k], n)
    decreases k - i
  {
    if i < k {
      CountsGrow(tasks, placed, workers, trace, i, k - 1, n);
      PlacedCounts(tasks[k - 1], placed[k - 1], workers, trace[k - 1], trace[k - 1 + 1]);
    }
  }

  /** The task had no standing placement before the pass and sits on the worker after it. */
  predicate NewOn(t: Task, t': Task, workers: Workers, n: string) {
    !Settled(t, workers) && t'.assignedWorker == n
  }

  /** How many of the first k tasks the pass newly put on a worker. */
  function NewlyGiven(tasks: seq<Task>, placed: seq<Task>, workers: Workers, n: string, k: nat): nat
    requires k <= |tasks| && k <= |placed|
  {
    if k == 0 then 0
    else NewlyGiven(tasks, placed, workers, n, k - 1) + if NewOn(tasks[k - 1], placed[k - 1], workers, n) then 1 else 0
  }

  lemma PlacedNew(t: Task, t': Task, workers: Workers, counts: Counts, counts': Counts, n: string)
    requires Placed(t, t', workers, counts, counts') && !Blank(n)
    ensures Given(counts', n) == Given(counts, n) + if NewOn(t, t', workers, n) then 1 else 0
  {
  }

  /** The counts are exactly the placements made. */
  lemma {:induction false} CountsMatchAssignments(tasks: seq<Task>, placed: seq<Task>, workers: Workers,
      trace: seq<Counts>, n: string, k: nat)
    requires Pass(tasks, placed, workers, trace) && k <= |tasks| && !Blank(n)
    ensures Given(trace[k], n) == NewlyGiven(tasks, placed, workers, n, k)
    decreases k
  {
    if k > 0 {
      CountsMatchAssignments(tasks, placed, workers, trace, n, k - 1);
      PlacedNew(tasks[k - 1], placed[k - 1], workers, trace[k - 1], trace[k - 1 + 1], n);
    }
  }

  /** A newly placed task gets what it asks for: its region, a GPU, and its model where the
      worker lists models. */
  lemma NewPlacementFits(tasks: seq<Task>, placed: seq<Task>, workers: Workers, trace: seq<Counts>, i: nat, n: string)
    requires Pass(tasks, placed, workers, trace) && i < |tasks| && !Blank(n) && NewOn(tasks[i], placed[i], workers, n)
    ensures n in workers && (tasks[i].gpu ==> workers[n].gpu)
    ensures !Blank(tasks[i].region) ==> EqualFold(TrimSpace(tasks[i].region), TrimSpace(workers[n].region))
    ensures !Blank(tasks[i].model) && workers[n].models != [] ==>
              exists m :: m in workers[n].models && EqualFold(TrimSpace(m), TrimSpace(tasks[i].model))
  {
    assert Placed(tasks[i], placed[i], workers, trace[i], trace[i + 1]);
    if !Blank(tasks[i].model) && workers[n].models != [] {
      var k :| 0 <= k < |workers[n].models|
               && EqualFold(TrimSpace(workers[n].models[k]), TrimSpace(tasks[i].model));
      assert workers[n].models[k] in workers[n].models;
    }
  }

  /** A worker's load after the pass, counted in tasks: what it reported and what it got. */
  function TasksOn(tasks: seq<Task>, placed: seq<Task>, workers: Workers, n: string): int
    requires |placed| == |tasks| && n in workers
  {
    workers[n].currentTasks + NewlyGiven(tasks, placed, workers, n, |tasks|)
  }

  /** No worker gets more new tasks than it has room for. */
  lemma CapsRespected(tasks: seq<Task>, placed: seq<Task>, workers: Workers, trace: seq<Counts>, n: string)
    requires Pass(tasks, placed, workers, trace) && !Blank(n)
    ensures NewlyGiven(tasks, placed, workers, n, |tasks|) > 0 ==>
              n in workers && TasksOn(tasks, placed, workers, n) <= Cap(workers[n])
  {
    CountsWithinCaps(tasks, placed, workers, trace, |tasks|);
    CountsMatchAssignments(tasks, placed, workers, trace, n, |tasks|);
  }

  /** The task sits on a worker that fits it, kept or newly chosen. */
  predicate Housed(t: Task, t': Task, workers: Workers) {
    || (t' == t && Settled(t, workers))
    || (t'.assignedWorker in workers && Fits(t, workers[t'.assignedWorker]))
  }

  /** After the pass a pending task is housed, or it has no worker and every worker that
      fits it is full. */
  lemma UnassignedMeansFull(tasks: seq<Task>, placed: seq<Task>, workers: Workers, trace: seq<Counts>, i: nat)
    requires Pass(tasks, placed, workers, trace) && i < |tasks| && tasks[i].pending
    ensures Housed(tasks[i], placed[i], workers)
            || (Blank(placed[i].assignedWorker) &&
                forall n :: n in workers && !Blank(n) && Fits(tasks[i], workers[n]) ==>
                  TasksOn(tasks, placed, workers, n) >= Cap(workers[n]))
  {
    assert Placed(tasks[i], placed[i], workers, trace[i], trace[i + 1]);
    forall n | n in workers && !Blank(n) && Fits(tasks[i], workers[n]) && !Candidate(tasks[i], workers, trace[i], n)
      ensures TasksOn(tasks, placed, workers, n) >= Cap(workers[n])
    {
      assert n != "";
      CountsMatchAssignments(tasks, placed, workers, trace, n, |tasks|);
      CountsGrow(tasks, placed, workers, trace, i, |tasks|, n);
    }
  }

  /** Without requirements: every worker given work ends at most one above any with room. */
  ghost predicate Balanced(workers: Workers, counts: Counts) {
    forall w, v | Given(counts, w) > 0 && w in workers && v in workers && v != "" ::
      Load(workers, counts, v) < Cap(workers[v]) ==> Load(workers, counts, w) <= Load(workers, counts, v) + 1
  }

  predicate Unconstrained(t: Task) {
    Blank(t.region) && !t.gpu && Blank(t.model)
  }

  lemma PlacedBalanced(t: Task, t': Task, workers: Workers, counts: Counts, counts': Counts)
    requires Placed(t, t', workers, counts, counts') && Unconstrained(t)
    requires Balanced(workers, counts)
    ensures Balanced(workers, counts')
  {
    PlacedCounts(t, t', workers, counts, counts');
    if counts' != counts {
      var best := t'.assignedWorker;
      forall w, v | Given(counts', w) > 0 && w in workers && v in workers && v != ""
          && Load(workers, counts', v) < Cap(workers[v])
        ensures Load(workers, counts', w) <= Load(workers, counts', v) + 1
      {
        assert Candidate(t, workers, counts, v);
      }
    }
  }

  lemma {:induction false} CountsBalance(tasks: seq<Task>, placed: seq<Task>, workers: Workers, trace: seq<Counts>,
      k: nat)
    requires Pass(tasks, placed, workers, trace) && k <= |tasks|
    requires forall i :: 0 <= i < |tasks| && tasks[i].pending ==> Unconstrained(tasks[i])
    ensures Balanced(workers, trace[k])
    decreases k
  {
    if k > 0 {
      CountsBalance(tasks, placed, workers, trace, k - 1);
      assert Placed(tasks[k - 1], placed[k - 1], workers, trace[k - 1], trace[k - 1 + 1]);
      if tasks[k - 1].pending {
        PlacedBalanced(tasks[k - 1], placed[k - 1], workers, trace[k - 1], trace[k]);
      }
    }
  }

  /** For tasks without requirements: a worker that got work ends at most one task above any
      worker that still has room. */
  lemma LoadsBalance(tasks: seq<Task>, placed: seq<Task>, workers: Workers, trace: seq<Counts>, w: string, v: string)
    requires Pass(tasks, placed, workers, trace) && !Blank(w) && !Blank(v) && w in workers && v in workers
    requires forall i :: 0 <= i < |tasks| && tasks[i].pending ==> Unconstrained(tasks[i])
    ensures NewlyGiven(tasks, placed, workers, w, |tasks|) > 0
              && TasksOn(tasks, placed, workers, v) < Cap(workers[v]) ==>
              TasksOn(tasks, placed, workers, w) <= TasksOn(tasks, placed, workers, v) + 1
  {
    CountsBalance(tasks, placed, workers, trace, |tasks|);
    CountsMatchAssignments(tasks, placed, workers, trace, w, |tasks|);
    CountsMatchAssignments(tasks, placed, workers, trace, v, |tasks|);
  }
}
