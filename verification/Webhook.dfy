/** Webhook deliveries: every handler works out its own task key, checks the dedupe store,
    creates the task and inserts atomically; deliveries of any events interleave. */
module Webhook {
  import opened Text

  // ---------------------------------------------------------------- task names

  /** Eight bytes of a hash in hexadecimal; here any function that yields words. */
  type Digest = string -> string

  function NameBase(webhookName: string): (base: string)
    ensures base != ""
  {
    var trimmed := TrimSpace(webhookName);
    var base := if trimmed == "" then "webhook-task" else trimmed;
    if |base| > 42 then base[..42] else base
  }

  function WebhookTaskName(webhookName: string, eventID: string, digest: Digest): string {
    NameBase(webhookName) + "-" + digest(TrimSpace(eventID))
  }

  ghost predicate Hexadecimal(digest: Digest) {
    forall s :: Word(digest(s))
  }

  /** A task name has no white space at its ends, so scoping it loses nothing. */
  lemma TaskNameTrimmed(webhookName: string, eventID: string, digest: Digest)
    requires Hexadecimal(digest)
    ensures TrimSpace(WebhookTaskName(webhookName, eventID, digest)) == WebhookTaskName(webhookName, eventID, digest)
  {
    var name, hex := WebhookTaskName(webhookName, eventID, digest), digest(TrimSpace(eventID));
    var lead, end := TrimExact(webhookName);
    assert !IsSpace(NameBase(webhookName)[0]);
    assert name[|name| - 1] == hex[|hex| - 1] && hex[|hex| - 1] in hex;
    TrimEnds(name);
  }

  // ------------------------------------------------------------------- requests

  /** A registered hook; its run tasks live in the namespace of its template. */
  datatype Hook = Hook(name: string, namespace: string, runNamespace: string, window: int)

  /** Which dedupe store: in memory, or the SQL statement that compares task names. */
  datatype Backend = Memory | Sql

  /** Hooks by endpoint id. */
  datatype Config = Config(hooks: map<string, Hook>, digest: Digest, backend: Backend) {
    ghost predicate Valid() {
      Hexadecimal(digest) && forall e :: e in hooks ==> TrimSpace(e) == e
    }
  }

  /** One HTTP delivery as it arrives: endpoint and event id are raw. */
  datatype Request = Request(endpoint: string, eventID: string, now: int)

  /** What the dedupe store keys on. */
  datatype EventKey = EventKey(endpoint: string, event: string)

  /** A stored run task: the labels of its hook, and the event it was created for. */
  datatype RunTask = RunTask(hookName: string, hookNamespace: string, event: string)

  /** What a handler works out from its request: the task key, as the dedupe store keeps it
      too, and the task it would create. */
  datatype Job = Job(event: EventKey, key: string, kept: string, task: RunTask, hook: Hook, now: int)

  /** The endpoint is registered and the request carries an event id. */
  predicate Known(c: Config, r: Request) {
    TrimSpace(r.endpoint) in c.hooks && !Blank(r.eventID)
  }

  function RunKey(h: Hook, eventID: string, digest: Digest): string {
    ScopedName(h.runNamespace, WebhookTaskName(h.name, eventID, digest))
  }

  function Plan(c: Config, r: Request): Job
    requires Known(c, r)
  {
    var h := c.hooks[TrimSpace(r.endpoint)];
    var key := RunKey(h, r.eventID, c.digest);
    Job(EventKey(TrimSpace(r.endpoint), TrimSpace(r.eventID)), key, TrimSpace(key),
        RunTask(h.name, NormalizeNamespace(h.namespace), TrimSpace(r.eventID)), h, r.now)
  }

  /** The deliveries that get as far as the dedupe pre-check; the others are refused. */
  function Admitted(c: Config, requests: map<nat, Request>): map<nat, Job> {
    map id | id in requests && Known(c, requests[id]) :: Plan(c, requests[id])
  }

  /** The key is the part before the digest, and the digest. */
  lemma RunKeyParts(h: Hook, eventID: string, digest: Digest)
    requires Hexadecimal(digest)
    ensures var cut := NormalizeNamespace(h.runNamespace) + "/" + (NameBase(h.name) + "-");
            RunKey(h, eventID, digest) == cut + digest(TrimSpace(eventID))
            && RunKey(h, eventID, digest)[|cut|..] == digest(TrimSpace(eventID))
  {
    TaskNameTrimmed(h.name, eventID, digest);
    var cut := NormalizeNamespace(h.runNamespace) + "/" + (NameBase(h.name) + "-");
    assert RunKey(h, eventID, digest) == cut + digest(TrimSpace(eventID));
  }

  lemma RunKeyTrimmed(h: Hook, eventID: string, digest: Digest)
    requires Hexadecimal(digest)
    ensures TrimSpace(RunKey(h, eventID, digest)) == RunKey(h, eventID, digest)
  {
    var key, hex := RunKey(h, eventID, digest), digest(TrimSpace(eventID));
    RunKeyParts(h, eventID, digest);
    var lead, end := TrimExact(h.runNamespace);
    assert !IsSpace(NormalizeNamespace(h.runNamespace)[0]);
    assert key[|key| - 1] == hex[|hex| - 1] && hex[|hex| - 1] in hex;
    TrimEnds(key);
  }

  /** Two events of one hook share a key exactly when their digests agree, padding aside;
      cutting a long hook name does not merge them. */
  lemma RunKeyExact(h: Hook, a: string, b: string, digest: Digest)
    requires Hexadecimal(digest)
    ensures RunKey(h, a, digest) == RunKey(h, b, digest) <==> digest(TrimSpace(a)) == digest(TrimSpace(b))
  {
    RunKeyParts(h, a, digest);
    RunKeyParts(h, b, digest);
  }

  // ------------------------------------------------------------------- protocol

  datatype DedupeEntry = DedupeEntry(task: string, expiresAt: int)

  type Entries = map<EventKey, DedupeEntry>

  datatype Answer = Accepted(duplicate: bool, task: string) | Rejected

  /** Where a delivery is; `Stopped` is a delivery whose handler died. */
  datatype Point = PreCheck | Lookup | Create | Insert | Answered(answer: Answer) | Stopped

  datatype Delivery = Delivery(job: Job, at: Point)

  /** `progress` counts what workers have done on each task since it was last written whole. */
  datatype System = System(
    entries: Entries,
    tasks: map<string, RunTask>,
    deliveries: map<nat, Delivery>,
    progress: map<string, nat>)

  datatype Step = Advance(delivery: nat) | Stop(delivery: nat) | PruneAt(now: int) | Work(key: string)

  /** A task found under the key is taken for this hook's by its labels alone. */
  predicate OwnedBy(t: RunTask, h: Hook) {
    && EqualFold(TrimSpace(t.hookName), TrimSpace(h.name))
    && EqualFold(TrimSpace(t.hookNamespace), NormalizeNamespace(h.namespace))
  }

  function Unexpired(entries: Entries, now: int): Entries {
    map e | e in entries && entries[e].expiresAt > now :: entries[e]
  }

  /** Looking at the in-memory store sweeps it; the SQL store only filters. */
  function Swept(backend: Backend, entries: Entries, now: int): Entries {
    if backend == Memory then Unexpired(entries, now) else entries
  }

  function Move(s: System, id: nat, at: Point): System
    requires id in s.deliveries
  {
    s.(deliveries := s.deliveries[id := s.deliveries[id].(at := at)])
  }

  /** The atomic dedupe insert, and the answer that follows from it. */
  function TryInsert(backend: Backend, entries: Entries, job: Job): (Entries, Answer) {
    var live := Unexpired(entries, job.now);
    if job.event !in live then
      (Swept(backend, entries, job.now)[job.event := DedupeEntry(job.kept, job.now + job.hook.window)],
          Accepted(false, job.key))
    else if backend == Sql && live[job.event].task == job.kept then (entries, Accepted(false, job.key))
    else (Swept(backend, entries, job.now), Accepted(true, live[job.event].task))
  }

  /** The next action of a delivery's handler. */
  function AdvanceDelivery(backend: Backend, s: System, id: nat): System
    requires id in s.deliveries
  {
    var job := s.deliveries[id].job;
    match s.deliveries[id].at
    case PreCheck =>
      var live := Unexpired(s.entries, job.now);
      Move(s.(entries := Swept(backend, s.entries, job.now)), id,
           if job.event in live then Answered(Accepted(true, live[job.event].task)) else Lookup)
    case Lookup =>
      Move(s, id, if job.key !in s.tasks then Create
                  else if OwnedBy(s.tasks[job.key], job.hook) then Insert
                  else Answered(Rejected))
    case Create =>
      Move(s.(tasks := s.tasks[job.key := job.task], progress := s.progress[job.key := 0]), id, Insert)
    case Insert =>
      var (entries, answer) := TryInsert(backend, s.entries, job);
      Move(s.(entries := entries), id, Answered(answer))
    case Answered(_) => s
    case Stopped => s
  }

  function Apply(backend: Backend, s: System, step: Step): System {
    match step
    case Advance(id) => if id in s.deliveries then AdvanceDelivery(backend, s, id) else s
    case Stop(id) => if id in s.deliveries && !s.deliveries[id].at.Answered? then Move(s, id, Stopped) else s
    case PruneAt(now) => s.(entries := Unexpired(s.entries, now))
    case Work(key) => s.(progress := s.progress[key := Progress(s, key) + 1])
  }

  function Progress(s: System, key: string): nat {
    if key in s.progress then s.progress[key] else 0
  }

  function Run(backend: Backend, s: System, steps: seq<Step>): System
    decreases |steps|
  {
    if steps == [] then s else Apply(backend, Run(backend, s, steps[..|steps| - 1]), steps[|steps| - 1])
  }

  function Start(tasks: map<string, RunTask>, jobs: map<nat, Job>): System {
    System(map[], tasks, map id | id in jobs :: Delivery(jobs[id], PreCheck), map[])
  }

  predicate Accepts(s: System, id: nat) {
    id in s.deliveries && s.deliveries[id].at.Answered? && s.deliveries[id].at.answer.Accepted?
  }

  predicate AcceptsFirst(s: System, id: nat) {
    Accepts(s, id) && !s.deliveries[id].at.answer.duplicate
  }

  function AnswerTask(s: System, id: nat): string
    requires Accepts(s, id)
  {
    s.deliveries[id].at.answer.task
  }

  // ------------------------------------------------------------- naming invariant

  /** Handlers of one event worked out one key, which the store keeps as it is. */
  ghost predicate Coherent(jobs: map<nat, Job>) {
    && (forall i :: i in jobs ==> jobs[i].kept == jobs[i].key)
    && (forall i, j :: i in jobs && j in jobs && jobs[i].event == jobs[j].event ==> jobs[i].key == jobs[j].key)
  }

  lemma AdmittedCoherent(c: Config, requests: map<nat, Request>)
    requires c.Valid()
    ensures Coherent(Admitted(c, requests))
  {
    var jobs := Admitted(c, requests);
    forall i | i in jobs
      ensures jobs[i].kept == jobs[i].key
    {
      RunKeyTrimmed(jobs[i].hook, requests[i].eventID, c.digest);
    }
    forall i, j | i in jobs && j in jobs && jobs[i].event == jobs[j].event
      ensures jobs[i].key == jobs[j].key
    {
      RunKeyExact(jobs[i].hook, requests[i].eventID, requests[j].eventID, c.digest);
    }
  }

  /** Past the lookup the delivery's task is stored, and an accepted answer names it. */
  ghost predicate SoundDelivery(s: System, job: Job, d: Delivery) {
    && d.job == job
    && (d.at.Insert? ==> job.key in s.tasks)
    && (d.at.Answered? && d.at.answer.Accepted? ==> job.key in s.tasks && d.at.answer.task == job.key)
  }

  /** An entry for a delivery's event names the key that delivery worked out. */
  ghost predicate SoundEntry(s: System, job: Job) {
    job.event in s.entries ==> s.entries[job.event].task == job.key && job.key in s.tasks
  }

  /** A stored task was there before, or is the one some delivery stores under its key. */
  ghost predicate SoundTask(tasks0: map<string, RunTask>, jobs: map<nat, Job>, k: string, t: RunTask) {
    || (k in tasks0 && t == tasks0[k])
    || exists id :: id in jobs && jobs[id].key == k && jobs[id].task == t
  }

  ghost predicate Named(tasks0: map<string, RunTask>, jobs: map<nat, Job>, s: System) {
    && s.deliveries.Keys == jobs.Keys
    && (forall id :: id in jobs ==> SoundDelivery(s, jobs[id], s.deliveries[id]))
    && (forall id :: id in jobs ==> SoundEntry(s, jobs[id]))
    && (forall k :: k in s.tasks ==> SoundTask(tasks0, jobs, k, s.tasks[k]))
  }

  /** The insert stores and answers the delivery's own key, and no other entry changes. */
  lemma InsertAnswers(backend: Backend, entries: Entries, job: Job)
    requires job.kept == job.key && (job.event in entries ==> entries[job.event].task == job.key)
    ensures var (entries', answer) := TryInsert(backend, entries, job);
            && answer.Accepted? && answer.task == job.key
            && (job.event in entries' ==> entries'[job.event].task == job.key)
            && forall e :: e in entries' && e != job.event ==> e in entries && entries'[e] == entries[e]
  {
  }

  lemma InsertEntries(backend: Backend, jobs: map<nat, Job>, s: System, id: nat)
    requires Coherent(jobs) && id in jobs && id in s.deliveries && s.deliveries[id] == Delivery(jobs[id], Insert)
    requires jobs[id].key in s.tasks && forall j :: j in jobs ==> SoundEntry(s, jobs[j])
    ensures forall j :: j in jobs ==> SoundEntry(AdvanceDelivery(backend, s, id), jobs[j])
  {
    assert SoundEntry(s, jobs[id]);
    InsertAnswers(backend, s.entries, jobs[id]);
    var t := AdvanceDelivery(backend, s, id);
    assert t.tasks == s.tasks;
    forall j | j in jobs
      ensures SoundEntry(t, jobs[j])
    {
      assert SoundEntry(s, jobs[j]);
    }
  }

  lemma InsertNamed(backend: Backend, tasks0: map<string, RunTask>, jobs: map<nat, Job>, s: System, id: nat)
    requires Coherent(jobs) && Named(tasks0, jobs, s) && id in jobs && s.deliveries[id].at.Insert?
    ensures Named(tasks0, jobs, AdvanceDelivery(backend, s, id))
  {
    assert SoundDelivery(s, jobs[id], s.deliveries[id]) && SoundEntry(s, jobs[id]);
    InsertAnswers(backend, s.entries, jobs[id]);
    InsertEntries(backend, jobs, s, id);
    assert AdvanceDelivery(backend, s, id).tasks == s.tasks;
  }

  lemma CreateNamed(backend: Backend, tasks0: map<string, RunTask>, jobs: map<nat, Job>, s: System, id: nat)
    requires Named(tasks0, jobs, s) && id in jobs && s.deliveries[id].at.Create?
    ensures Named(tasks0, jobs, AdvanceDelivery(backend, s, id))
  {
    var t := AdvanceDelivery(backend, s, id);
    assert SoundDelivery(s, jobs[id], s.deliveries[id]);
    assert t.tasks == s.tasks[jobs[id].key := jobs[id].task];
    forall k | k in t.tasks
      ensures SoundTask(tasks0, jobs, k, t.tasks[k])
    {
      assert k != jobs[id].key ==> SoundTask(tasks0, jobs, k, s.tasks[k]);
    }
  }

  lemma PreCheckNamed(backend: Backend, tasks0: map<string, RunTask>, jobs: map<nat, Job>, s: System, id: nat)
    requires Named(tasks0, jobs, s) && id in jobs && s.deliveries[id].at.PreCheck?
    ensures Named(tasks0, jobs, AdvanceDelivery(backend, s, id))
  {
    var t := AdvanceDelivery(backend, s, id);
    assert SoundDelivery(s, jobs[id], s.deliveries[id]) && SoundEntry(s, jobs[id]);
    assert t.tasks == s.tasks;
    assert forall e :: e in t.entries ==> e in s.entries && t.entries[e] == s.entries[e];
  }

  lemma LookupNamed(backend: Backend, tasks0: map<string, RunTask>, jobs: map<nat, Job>, s: System, id: nat)
    requires Named(tasks0, jobs, s) && id in jobs && s.deliveries[id].at.Lookup?
    ensures Named(tasks0, jobs, AdvanceDelivery(backend, s, id))
  {
    var t := AdvanceDelivery(backend, s, id);
    assert SoundDelivery(s, jobs[id], s.deliveries[id]);
    assert t.tasks == s.tasks && t.entries == s.entries;
  }

  lemma StepNamed(backend: Backend, tasks0: map<string, RunTask>, jobs: map<nat, Job>, s: System, step: Step)
    requires Coherent(jobs) && Named(tasks0, jobs, s)
    ensures Named(tasks0, jobs, Apply(backend, s, step))
  {
    if step.Advance? && step.delivery in s.deliveries {
      var id := step.delivery;
      match s.deliveries[id].at
      case Insert => InsertNamed(backend, tasks0, jobs, s, id);
      case Create => CreateNamed(backend, tasks0, jobs, s, id);
      case PreCheck => PreCheckNamed(backend, tasks0, jobs, s, id);
      case Lookup => LookupNamed(backend, tasks0, jobs, s, id);
      case _ =>
    }
  }

  lemma {:induction false} RunNamed(backend: Backend, tasks: map<string, RunTask>, jobs: map<nat, Job>,
      steps: seq<Step>)
    requires Coherent(jobs)
    ensures Named(tasks, jobs, Run(backend, Start(tasks, jobs), steps))
    decreases |steps|
  {
    if steps != [] {
      RunNamed(backend, tasks, jobs, steps[..|steps| - 1]);
      StepNamed(backend, tasks, jobs, Run(backend, Start(tasks, jobs), steps[..|steps| - 1]), steps[|steps| - 1]);
    }
  }

  function RunRequests(c: Config, tasks: map<string, RunTask>, requests: map<nat, Request>, steps: seq<Step>): System {
    Run(c.backend, Start(tasks, Admitted(c, requests)), steps)
  }

  /** Whatever the interleaving, the clocks and the handlers that die: every accepted answer
      names the key its own event determines, and that task exists; two accepted answers of one
      hook name one task exactly when the digests of their events agree. */
  lemma OneTaskKey(c: Config, tasks: map<string, RunTask>, requests: map<nat, Request>, steps: seq<Step>, i: nat,
      j: nat)
    requires c.Valid()
    requires Accepts(RunRequests(c, tasks, requests, steps), i) && Accepts(RunRequests(c, tasks, requests, steps), j)
    ensures i in requests && Known(c, requests[i]) && j in requests && Known(c, requests[j])
    ensures var s, job := RunRequests(c, tasks, requests, steps), Plan(c, requests[i]);
            AnswerTask(s, i) == job.key && job.key in s.tasks
    ensures var s := RunRequests(c, tasks, requests, steps);
            Plan(c, requests[i]).event.endpoint == Plan(c, requests[j]).event.endpoint ==>
              (AnswerTask(s, i) == AnswerTask(s, j) <==>
               c.digest(TrimSpace(requests[i].eventID)) == c.digest(TrimSpace(requests[j].eventID)))
  {
    var s, jobs := RunRequests(c, tasks, requests, steps), Admitted(c, requests);
    AdmittedCoherent(c, requests);
    RunNamed(c.backend, tasks, jobs, steps);
    assert SoundDelivery(s, jobs[i], s.deliveries[i]) && SoundDelivery(s, jobs[j], s.deliveries[j]);
    if jobs[i].event.endpoint == jobs[j].event.endpoint {
      RunKeyExact(jobs[i].hook, requests[i].eventID, requests[j].eventID, c.digest);
    }
  }

  // --------------------------------------------------------- whose task it is

  lemma RunSnoc(backend: Backend, s: System, steps: seq<Step>, step: Step)
    ensures Run(backend, s, steps + [step]) == Apply(backend, Run(backend, s, steps), step)
  {
    assert (steps + [step])[..|steps|] == steps;
  }

  ghost predicate FreshKeys(tasks: map<string, RunTask>, jobs: map<nat, Job>) {
    forall id :: id in jobs ==> jobs[id].key !in tasks
  }

  /** Two deliveries can both find no entry and no task. */
  lemma PassTogether(backend: Backend, tasks: map<string, RunTask>, jobs: map<nat, Job>, i: nat,
      j: nat) returns (steps: seq<Step>)
    requires i in jobs && j in jobs && i != j && FreshKeys(tasks, jobs)
    ensures var s, s0 := Run(backend, Start(tasks, jobs), steps), Start(tasks, jobs);
            s == s0.(deliveries := s0.deliveries[i := Delivery(jobs[i], Create)][j := Delivery(jobs[j], Create)])
    ensures forall step :: step in steps ==> step.Advance?
  {
    var s0 := Start(tasks, jobs);
    var one := [Advance(i)];
    var two := one + [Advance(j)];
    var three := two + [Advance(i)];
    steps := three + [Advance(j)];
    RunSnoc(backend, s0, [], Advance(i));
    assert [] + [Advance(i)] == one;
    RunSnoc(backend, s0, one, Advance(j));
    RunSnoc(backend, s0, two, Advance(i));
    RunSnoc(backend, s0, three, Advance(j));
    assert Run(backend, s0, one) == Move(s0, i, Lookup);
    assert Run(backend, s0, two) == Move(Move(s0, i, Lookup), j, Lookup);
  }

  /** If two deliveries worked out one key for different tasks, one of them can be accepted
      and then find its task overwritten by the other's. */
  lemma Overwritten(backend: Backend, tasks: map<string, RunTask>, jobs: map<nat, Job>, i: nat,
      j: nat) returns (steps: seq<Step>)
    requires i in jobs && j in jobs && FreshKeys(tasks, jobs)
    requires jobs[i].key == jobs[j].key && jobs[i].task != jobs[j].task
    ensures var s := Run(backend, Start(tasks, jobs), steps);
            Accepts(s, i) && AnswerTask(s, i) == jobs[i].key && jobs[i].key in s.tasks
                && s.tasks[jobs[i].key] != jobs[i].task
  {
    var s0 := Start(tasks, jobs);
    var both := PassTogether(backend, tasks, jobs, i, j);
    var s1 := Run(backend, s0, both);
    var s2 := Apply(backend, s1, Advance(i));
    var s3 := Apply(backend, s2, Advance(i));
    RunSnoc(backend, s0, both, Advance(i));
    RunSnoc(backend, s0, both + [Advance(i)], Advance(i));
    RunSnoc(backend, s0, both + [Advance(i)] + [Advance(i)], Advance(j));
    steps := both + [Advance(i)] + [Advance(i)] + [Advance(j)];
    assert s2.deliveries[i] == Delivery(jobs[i], Insert) && s2.entries == map[];
    assert Accepts(s3, i) && s3.deliveries[j] == Delivery(jobs[j], Create);
  }

  /** An accepted delivery's task is one made for its own hook and event. */
  predicate Served(s: System, jobs: map<nat, Job>, id: nat) {
    Accepts(s, id) ==> id in jobs && AnswerTask(s, id) in s.tasks && s.tasks[AnswerTask(s, id)] == jobs[id].task
  }

  ghost predicate AlwaysServed(backend: Backend, jobs: map<nat, Job>) {
    forall tasks: map<string, RunTask>, steps: seq<Step>, id: nat ::
      FreshKeys(tasks, jobs) ==> Served(Run(backend, Start(tasks, jobs), steps), jobs, id)
  }

  ghost predicate NoCollision(jobs: map<nat, Job>) {
    forall i, j :: i in jobs && j in jobs && jobs[i].key == jobs[j].key ==> jobs[i].task == jobs[j].task
  }

  lemma ServedUnlessCollision(backend: Backend, tasks: map<string, RunTask>, jobs: map<nat, Job>, steps: seq<Step>,
      id: nat)
    requires Coherent(jobs) && NoCollision(jobs) && FreshKeys(tasks, jobs)
    ensures Served(Run(backend, Start(tasks, jobs), steps), jobs, id)
  {
    var s := Run(backend, Start(tasks, jobs), steps);
    RunNamed(backend, tasks, jobs, steps);
    if Accepts(s, id) {
      assert SoundDelivery(s, jobs[id], s.deliveries[id]);
      assert SoundTask(tasks, jobs, jobs[id].key, s.tasks[jobs[id].key]);
    }
  }

  lemma AlwaysServedExactly(backend: Backend, jobs: map<nat, Job>)
    requires Coherent(jobs)
    ensures AlwaysServed(backend, jobs) <==> NoCollision(jobs)
  {
    if !NoCollision(jobs) {
      var i, j :| i in jobs && j in jobs && jobs[i].key == jobs[j].key && jobs[i].task != jobs[j].task;
      var tasks: map<string, RunTask> := map[];
      var steps := Overwritten(backend, tasks, jobs, i, j);
      assert !Served(Run(backend, Start(tasks, jobs), steps), jobs, i);
    } else {
      forall tasks: map<string, RunTask>, steps: seq<Step>, id: nat | FreshKeys(tasks, jobs)
        ensures Served(Run(backend, Start(tasks, jobs), steps), jobs, id)
      {
        ServedUnlessCollision(backend, tasks, jobs, steps, id);
      }
    }
  }

  /** In every run and at every moment the tasks of accepted deliveries are their own. */
  ghost predicate ServesOwnEvents(c: Config, requests: map<nat, Request>) {
    AlwaysServed(c.backend, Admitted(c, requests))
  }

  /** That holds exactly when no two deliveries of different events or hooks work out one key:
      the lookup tells hooks apart, but neither events nor races. */
  lemma OwnEventsExactly(c: Config, requests: map<nat, Request>)
    requires c.Valid()
    ensures ServesOwnEvents(c, requests) <==> NoCollision(Admitted(c, requests))
  {
    AdmittedCoherent(c, requests);
    AlwaysServedExactly(c.backend, Admitted(c, requests));
  }

  /** For deliveries to one hook: exactly when the digest tells their events apart. */
  lemma OneHookExactly(c: Config, requests: map<nat, Request>, endpoint: string)
    requires c.Valid() && forall id :: id in requests && Known(c, requests[id]) ==>
              TrimSpace(requests[id].endpoint) == endpoint
    ensures ServesOwnEvents(c, requests) <==>
              forall i, j :: i in requests && j in requests && Known(c, requests[i]) && Known(c, requests[j])
                             && c.digest(TrimSpace(requests[i].eventID)) == c.digest(TrimSpace(requests[j].eventID)) ==>
                TrimSpace(requests[i].eventID) == TrimSpace(requests[j].eventID)
  {
    OwnEventsExactly(c, requests);
    var jobs := Admitted(c, requests);
    forall i, j | i in jobs && j in jobs
      ensures jobs[i].key == jobs[j].key <==>
                c.digest(TrimSpace(requests[i].eventID)) == c.digest(TrimSpace(requests[j].eventID))
      ensures jobs[i].task == jobs[j].task <==> TrimSpace(requests[i].eventID) == TrimSpace(requests[j].eventID)
    {
      RunKeyExact(jobs[i].hook, requests[i].eventID, requests[j].eventID, c.digest);
    }
  }

  // ------------------------------------------------------------- lost progress

  /** The step takes nothing away from an accepted delivery's task. */
  predicate KeepsProgress(backend: Backend, jobs: map<nat, Job>, s: System, step: Step, id: nat) {
    Accepts(s, id) && id in jobs ==> Progress(Apply(backend, s, step), jobs[id].key) >= Progress(s, jobs[id].key)
  }

  ghost predicate NeverReset(backend: Backend, jobs: map<nat, Job>) {
    forall tasks: map<string, RunTask>, steps: seq<Step>, step: Step, id: nat ::
      FreshKeys(tasks, jobs) ==> KeepsProgress(backend, jobs, Run(backend, Start(tasks, jobs), steps), step, id)
  }

  ghost predicate OwnKeys(jobs: map<nat, Job>) {
    forall i, j :: i in jobs && j in jobs && jobs[i].key == jobs[j].key ==> i == j
  }

  /** Two deliveries, even of one event, pass the lookup together; one is accepted and its task
      is worked on, and then the other writes the task afresh. */
  lemma WorkLost(backend: Backend, tasks: map<string, RunTask>, jobs: map<nat, Job>, i: nat, j: nat)
    returns (steps: seq<Step>)
    requires i in jobs && j in jobs && i != j && jobs[i].key == jobs[j].key && FreshKeys(tasks, jobs)
    ensures !KeepsProgress(backend, jobs, Run(backend, Start(tasks, jobs), steps), Advance(j), i)
  {
    var s0, key := Start(tasks, jobs), jobs[i].key;
    var both := PassTogether(backend, tasks, jobs, i, j);
    var s1 := Run(backend, s0, both);
    var s2 := Apply(backend, s1, Advance(i));
    var s3 := Apply(backend, s2, Advance(i));
    var five := both + [Advance(i)];
    var six := five + [Advance(i)];
    steps := six + [Work(key)];
    RunSnoc(backend, s0, both, Advance(i));
    RunSnoc(backend, s0, five, Advance(i));
    RunSnoc(backend, s0, six, Work(key));
    assert s2.deliveries[i] == Delivery(jobs[i], Insert) && s2.entries == map[];
    assert Accepts(s3, i) && s3.deliveries[j] == Delivery(jobs[j], Create);
  }

  lemma OwnKeysKeep(backend: Backend, tasks: map<string, RunTask>, jobs: map<nat, Job>, steps: seq<Step>, step: Step,
      id: nat)
    requires Coherent(jobs) && OwnKeys(jobs)
    ensures KeepsProgress(backend, jobs, Run(backend, Start(tasks, jobs), steps), step, id)
  {
    var s := Run(backend, Start(tasks, jobs), steps);
    RunNamed(backend, tasks, jobs, steps);
    if Accepts(s, id) && step.Advance? && step.delivery in jobs {
      assert SoundDelivery(s, jobs[step.delivery], s.deliveries[step.delivery]);
      OnlyCreateResets(backend, s, step.delivery, jobs[id].key);
    }
  }

  lemma OnlyCreateResets(backend: Backend, s: System, id: nat, key: string)
    requires id in s.deliveries
    ensures !(s.deliveries[id].at.Create? && s.deliveries[id].job.key == key) ==>
              Progress(AdvanceDelivery(backend, s, id), key) == Progress(s, key)
  {
  }

  /** An accepted delivery's task is never reset exactly when no two deliveries share a key. */
  lemma NeverResetExactly(c: Config, requests: map<nat, Request>)
    requires c.Valid()
    ensures NeverReset(c.backend, Admitted(c, requests)) <==> OwnKeys(Admitted(c, requests))
  {
    AdmittedCoherent(c, requests);
    ResetOnlyWhenShared(c.backend, Admitted(c, requests));
  }

  lemma ResetOnlyWhenShared(backend: Backend, jobs: map<nat, Job>)
    requires Coherent(jobs)
    ensures NeverReset(backend, jobs) <==> OwnKeys(jobs)
  {
    if OwnKeys(jobs) {
      forall tasks: map<string, RunTask>, steps: seq<Step>, step: Step, id: nat | FreshKeys(tasks, jobs)
        ensures KeepsProgress(backend, jobs, Run(backend, Start(tasks, jobs), steps), step, id)
      {
        OwnKeysKeep(backend, tasks, jobs, steps, step, id);
      }
    } else {
      var i, j :| i in jobs && j in jobs && jobs[i].key == jobs[j].key && i != j;
      var tasks: map<string, RunTask> := map[];
      var steps := WorkLost(backend, tasks, jobs, i, j);
    }
  }

  // ------------------------------------------------------------- first deliveries

  /** All clock readings lie in one dedupe window of the event. */
  ghost predicate Windowed(jobs: map<nat, Job>, steps: seq<Step>, e: EventKey, from: int, window: int) {
    && (forall id :: id in jobs ==> from <= jobs[id].now < from + window)
    && (forall id :: id in jobs && jobs[id].event == e ==> jobs[id].hook.window == window)
    && (forall step :: step in steps && step.PruneAt? ==> from <= step.now < from + window)
  }

  /** The event's entry outlives the window, and is there once a delivery was answered first. */
  ghost predicate Kept(backend: Backend, jobs: map<nat, Job>, e: EventKey, end: int, s: System) {
    && s.deliveries.Keys == jobs.Keys && (forall id :: id in jobs ==> s.deliveries[id].job == jobs[id])
    && (e in s.entries ==> s.entries[e].expiresAt >= end)
    && (forall id :: AcceptsFirst(s, id) && jobs[id].event == e ==> e in s.entries)
    && (backend == Memory ==>
          forall i, j | AcceptsFirst(s, i) && AcceptsFirst(s, j) :: jobs[i].event == e == jobs[j].event ==> i == j)
  }

  lemma InsertKept(backend: Backend, jobs: map<nat, Job>, e: EventKey, from: int, window: int, s: System, id: nat)
    requires Kept(backend, jobs, e, from + window, s) && Windowed(jobs, [], e, from, window)
    requires id in jobs && s.deliveries[id].at.Insert?
    ensures Kept(backend, jobs, e, from + window, AdvanceDelivery(backend, s, id))
  {
    var t := AdvanceDelivery(backend, s, id);
    assert forall j :: j != id ==> (AcceptsFirst(t, j) <==> AcceptsFirst(s, j));
    assert !AcceptsFirst(s, id);
    if jobs[id].event != e {
      assert e in t.entries <==> e in s.entries;
    }
  }

  /** A step that answers no first delivery and leaves the event's entry keeps the invariant. */
  lemma SameKept(backend: Backend, jobs: map<nat, Job>, e: EventKey, end: int, s: System, t: System)
    requires Kept(backend, jobs, e, end, s) && t.deliveries.Keys == jobs.Keys
    requires forall id :: id in jobs ==> t.deliveries[id].job == jobs[id]
    requires forall j :: AcceptsFirst(t, j) <==> AcceptsFirst(s, j)
    requires (e in t.entries <==> e in s.entries) && (e in t.entries ==> t.entries[e] == s.entries[e])
    ensures Kept(backend, jobs, e, end, t)
  {
  }

  lemma ReadKept(backend: Backend, jobs: map<nat, Job>, e: EventKey, from: int, window: int, s: System, id: nat)
    requires Kept(backend, jobs, e, from + window, s) && Windowed(jobs, [], e, from, window)
    requires id in jobs && !s.deliveries[id].at.Insert?
    ensures Kept(backend, jobs, e, from + window, AdvanceDelivery(backend, s, id))
  {
    ReadAnswersNoFirst(backend, s, id);
    ReadKeepsEntry(backend, s, id, e);
    SameKept(backend, jobs, e, from + window, s, AdvanceDelivery(backend, s, id));
  }

  lemma ReadAnswersNoFirst(backend: Backend, s: System, id: nat)
    requires id in s.deliveries && !s.deliveries[id].at.Insert?
    ensures var t := AdvanceDelivery(backend, s, id);
            && t.deliveries.Keys == s.deliveries.Keys
            && (forall j :: j in s.deliveries ==> t.deliveries[j].job == s.deliveries[j].job)
            && forall j :: AcceptsFirst(t, j) <==> AcceptsFirst(s, j)
  {
  }

  lemma ReadKeepsEntry(backend: Backend, s: System, id: nat, e: EventKey)
    requires id in s.deliveries && !s.deliveries[id].at.Insert?
    requires e in s.entries ==> s.entries[e].expiresAt > s.deliveries[id].job.now
    ensures var t := AdvanceDelivery(backend, s, id);
            (e in t.entries <==> e in s.entries) && (e in t.entries ==> t.entries[e] == s.entries[e])
  {
  }

  lemma OtherKept(backend: Backend, jobs: map<nat, Job>, e: EventKey, from: int, window: int, s: System, step: Step)
    requires Kept(backend, jobs, e, from + window, s) && Windowed(jobs, [step], e, from, window) && !step.Advance?
    ensures Kept(backend, jobs, e, from + window, Apply(backend, s, step))
  {
    var t := Apply(backend, s, step);
    assert step in [step];
    assert forall j :: AcceptsFirst(t, j) <==> AcceptsFirst(s, j);
    SameKept(backend, jobs, e, from + window, s, t);
  }

  lemma StepKept(backend: Backend, jobs: map<nat, Job>, e: EventKey, from: int, window: int, s: System, step: Step)
    requires Kept(backend, jobs, e, from + window, s) && Windowed(jobs, [step], e, from, window)
    ensures Kept(backend, jobs, e, from + window, Apply(backend, s, step))
  {
    if !step.Advance? {
      OtherKept(backend, jobs, e, from, window, s, step);
    } else if step.delivery in jobs && s.deliveries[step.delivery].at.Insert? {
      InsertKept(backend, jobs, e, from, window, s, step.delivery);
    } else if step.delivery in jobs {
      ReadKept(backend, jobs, e, from, window, s, step.delivery);
    }
  }

  lemma {:induction false} RunKept(backend: Backend, tasks: map<string, RunTask>, jobs: map<nat, Job>, e: EventKey,
      from: int, window: int, steps: seq<Step>)
    requires Windowed(jobs, steps, e, from, window)
    ensures Kept(backend, jobs, e, from + window, Run(backend, Start(tasks, jobs), steps))
    decreases |steps|
  {
    if steps != [] {
      var init, last := steps[..|steps| - 1], steps[|steps| - 1];
      RunKept(backend, tasks, jobs, e, from, window, init);
      StepKept(backend, jobs, e, from, window, Run(backend, Start(tasks, jobs), init), last);
    }
  }

  /** The SQL statement takes an entry with the caller's own task name for its own insert, so
      two deliveries of one event that pass the pre-check together both answer duplicate=false. */
  lemma SqlBothFirst(tasks: map<string, RunTask>, jobs: map<nat, Job>, i: nat, j: nat) returns (steps: seq<Step>)
    requires i in jobs && j in jobs && i != j && FreshKeys(tasks, jobs) && Coherent(jobs)
              && jobs[i].event == jobs[j].event
    ensures var s := Run(Sql, Start(tasks, jobs), steps); AcceptsFirst(s, i) && AcceptsFirst(s, j)
    ensures forall step :: step in steps ==> step.Advance?
  {
    var s0 := Start(tasks, jobs);
    var both := PassTogether(Sql, tasks, jobs, i, j);
    var s1 := Run(Sql, s0, both);
    var s2 := Apply(Sql, Apply(Sql, s1, Advance(i)), Advance(j));
    var s3 := Apply(Sql, s2, Advance(i));
    var five := both + [Advance(i)];
    var six := five + [Advance(j)];
    var seven := six + [Advance(i)];
    steps := seven + [Advance(j)];
    RunSnoc(Sql, s0, both, Advance(i));
    RunSnoc(Sql, s0, five, Advance(j));
    RunSnoc(Sql, s0, six, Advance(i));
    RunSnoc(Sql, s0, seven, Advance(j));
    assert s2.deliveries[i] == Delivery(jobs[i], Insert) && s2.deliveries[j] == Delivery(jobs[j], Insert)
        && s2.entries == map[];
    assert s3.entries == map[jobs[i].event := DedupeEntry(jobs[i].key, jobs[i].now + jobs[i].hook.window)];
    assert AcceptsFirst(s3, i) && s3.deliveries[j] == Delivery(jobs[j], Insert);
  }

  /** In every run whose clock readings lie in one window of an event, at most one delivery of
      the event is answered as the first. */
  ghost predicate AtMostOneFirst(c: Config) {
    forall tasks: map<string, RunTask>, requests: map<nat, Request>, steps: seq<Step>, e: EventKey, from: int,
        i: nat, j: nat ::
      (&& e.endpoint in c.hooks && Windowed(Admitted(c, requests), steps, e, from, c.hooks[e.endpoint].window)
       && OneEventFirst(c, tasks, requests, steps, e, i, j)) ==> i == j
  }

  ghost predicate OneEventFirst(c: Config, tasks: map<string, RunTask>, requests: map<nat, Request>,
      steps: seq<Step>, e: EventKey, i: nat, j: nat) {
    var s, jobs := RunRequests(c, tasks, requests, steps), Admitted(c, requests);
    i in jobs && j in jobs && jobs[i].event == e == jobs[j].event && AcceptsFirst(s, i) && AcceptsFirst(s, j)
  }

  /** With the in-memory dedupe store at most one answer is not a duplicate. */
  lemma OneFirstDelivery(c: Config, tasks: map<string, RunTask>, requests: map<nat, Request>, steps: seq<Step>,
      e: EventKey, from: int, i: nat, j: nat)
    requires c.backend == Memory && e.endpoint in c.hooks
    requires Windowed(Admitted(c, requests), steps, e, from, c.hooks[e.endpoint].window)
    requires OneEventFirst(c, tasks, requests, steps, e, i, j)
    ensures i == j
  {
    RunKept(c.backend, tasks, Admitted(c, requests), e, from, c.hooks[e.endpoint].window, steps);
  }

  /** Two requests for one event at one instant. */
  function Twice(endpoint: string): map<nat, Request> {
    map[1 := Request(endpoint, "x", 0), 2 := Request(endpoint, "x", 0)]
  }

  lemma TwiceAdmitted(c: Config, endpoint: string)
    requires c.Valid() && endpoint in c.hooks
    ensures var jobs := Admitted(c, Twice(endpoint));
            && jobs.Keys == {1, 2} && jobs[1] == jobs[2] && jobs[1].event.endpoint == endpoint
            && jobs[1].hook == c.hooks[endpoint] && jobs[1].now == 0
  {
    var r := Request(endpoint, "x", 0);
    TrimSolid("x");
    assert Known(c, r);
    SameJobs(c, r);
  }

  lemma SameJobs(c: Config, r: Request)
    requires Known(c, r)
    ensures Admitted(c, map[1 := r, 2 := r]) == map[1 := Plan(c, r), 2 := Plan(c, r)]
  {
  }

  lemma TwiceWindowed(jobs: map<nat, Job>, steps: seq<Step>, e: EventKey, window: int)
    requires jobs.Keys == {1, 2} && jobs[1] == jobs[2] && jobs[1].now == 0 && jobs[1].hook.window == window > 0
    requires forall step :: step in steps ==> step.Advance?
    ensures Windowed(jobs, steps, e, 0, window)
  {
    assert forall id :: id in jobs ==> jobs[id] == jobs[1];
  }

  lemma SqlFirstTwice(c: Config, endpoint: string, requests: map<nat, Request>, jobs: map<nat, Job>)
    requires c.Valid() && c.backend == Sql && endpoint in c.hooks && c.hooks[endpoint].window > 0
    requires jobs == Admitted(c, requests) && jobs.Keys == {1, 2} && jobs[1] == jobs[2]
    requires jobs[1].event.endpoint == endpoint && jobs[1].hook == c.hooks[endpoint] && jobs[1].now == 0
    ensures !AtMostOneFirst(c)
  {
    AdmittedCoherent(c, requests);
    var e := jobs[1].event;
    var tasks: map<string, RunTask> := map[];
    var steps := SqlBothFirst(tasks, jobs, 1, 2);
    TwiceWindowed(jobs, steps, e, c.hooks[endpoint].window);
    assert OneEventFirst(c, tasks, requests, steps, e, 1, 2);
  }

  /** At most one delivery is answered as the first exactly with the in-memory store (or when
      no hook has a window inside which anything could happen). */
  lemma OneFirstExactly(c: Config)
    requires c.Valid()
    ensures AtMostOneFirst(c) <==> c.backend == Memory || forall e :: e in c.hooks ==> c.hooks[e].window <= 0
  {
    if c.backend == Memory {
      forall tasks: map<string, RunTask>, requests: map<nat, Request>, steps: seq<Step>, e: EventKey, from: int,
          i: nat, j: nat |
        e.endpoint in c.hooks && Windowed(Admitted(c, requests), steps, e, from, c.hooks[e.endpoint].window)
        && OneEventFirst(c, tasks, requests, steps, e, i, j)
        ensures i == j
      {
        OneFirstDelivery(c, tasks, requests, steps, e, from, i, j);
      }
    } else if endpoint :| endpoint in c.hooks && c.hooks[endpoint].window > 0 {
      TwiceAdmitted(c, endpoint);
      SqlFirstTwice(c, endpoint, Twice(endpoint), Admitted(c, Twice(endpoint)));
    }
  }
}
