/** Concurrent decisions on one stored approval: bounded read-check-write loops over a
    store that compares resource versions. */
module Approvals {
  import opened Text

  datatype Phase = Pending | Approved | Denied | ChangesRequested | Expired

  datatype Decision = Approve | Deny | RequestChanges

  function PhaseOf(d: Decision): Phase {
    match d case Approve => Approved case Deny => Denied case RequestChanges => ChangesRequested
  }

  predicate IsDecided(phase: Phase) {
    phase.Approved? || phase.Denied? || phase.ChangesRequested?
  }

  /** The stored object: status, the limits of its spec, and the resource version. */
  datatype Stored = Stored(phase: Phase, decision: Option<Decision>, decidedBy: string,
                           allowRequestChanges: bool, cycle: int, maxCycles: int, version: nat)

  datatype Answer = Done | AlreadyDecided | NotAllowed | GaveUp

  datatype Call = Call(decision: Decision, author: string, attempt: nat, at: Point)
  datatype Point = Reading | Writing(read: Stored) | Answered(answer: Answer)

  const MAX_ATTEMPTS := 5

  /** A create-or-update request in flight: the spec and the resource version its client sent
      (none when empty), and the object whose status its handler read. */
  datatype Post = Post(carried: Option<nat>, allow: bool, cycle: int, maxCycles: int, read: Stored)

  datatype System = System(stored: Stored, calls: map<nat, Call>, posts: map<nat, Post>)

  datatype Step =
    | Read(call: nat)
    | Write(call: nat)
    | PostRead(post: nat, carried: Option<nat>, allow: bool, cycle: int, maxCycles: int)
    | PostWrite(post: nat)
    | Recreate(allow: bool, maxCycles: int)
    | Bump(allow: bool, cycle: int, maxCycles: int)

  /** What the rest of the system does: which version a post carries against the one its
      handler reads, and at which stored phases the controller reaches the checkpoint again. */
  datatype Environment = Environment(posts: (Option<nat>, nat) -> bool, reenters: Phase -> bool)

  function Decided(s: Stored, c: Call): Stored {
    s.(phase := PhaseOf(c.decision), decision := Some(c.decision), decidedBy := c.author)
  }

  /** The checks between reading and writing. */
  function AfterRead(c: Call, read: Stored): Point {
    if read.phase != Pending then Answered(AlreadyDecided)
    else if c.decision.RequestChanges? && (!read.allowRequestChanges || read.cycle >= read.maxCycles)
    then Answered(NotAllowed)
    else Writing(read)
  }

  /** The compare-and-swap of a call; a conflict starts the next attempt. */
  function WriteCall(s: System, id: nat): System
    requires id in s.calls && s.calls[id].at.Writing?
  {
    var c := s.calls[id];
    if c.at.read.version == s.stored.version then
      s.(stored := Decided(c.at.read, c).(version := s.stored.version + 1),
          calls := s.calls[id := c.(at := Answered(Done))])
    else if c.attempt + 1 == MAX_ATTEMPTS then s.(calls := s.calls[id := c.(at := Answered(GaveUp))])
    else s.(calls := s.calls[id := c.(attempt := c.attempt + 1, at := Reading)])
  }

  /** A post writes its spec with the status it read; only a version it carries is compared. */
  function WritePost(s: System, id: nat): System
    requires id in s.posts
  {
    var p, posts := s.posts[id], s.posts - {id};
    if p.carried.Some? && p.carried.value != s.stored.version then s.(posts := posts)
    else
      s.(stored := p.read.(allowRequestChanges := p.allow, cycle := p.cycle, maxCycles := p.maxCycles,
          version := s.stored.version + 1),
         posts := posts)
  }

  /** The controller writes the approval of a checkpoint and cycle afresh, under the same name
      and without a version. */
  function Recreated(s: Stored, allow: bool, maxCycles: int): Stored {
    Stored(Pending, None, "", allow, s.cycle, maxCycles, s.version + 1)
  }

  /** One atomic step; steps that are not enabled change nothing. A bump rewrites the spec
      and the version, and leaves the status. */
  function Apply(env: Environment, s: System, step: Step): System {
    match step
    case Bump(allow, cycle, maxCycles) =>
      s.(stored := s.stored.(allowRequestChanges := allow, cycle := cycle, maxCycles := maxCycles,
          version := s.stored.version + 1))
    case Recreate(allow, maxCycles) =>
      if env.reenters(s.stored.phase) then s.(stored := Recreated(s.stored, allow, maxCycles)) else s
    case Read(id) =>
      if id !in s.calls || !s.calls[id].at.Reading? then s
      else
        var c := s.calls[id];
        s.(calls := s.calls[id := c.(at := AfterRead(c, s.stored))])
    case Write(id) =>
      if id !in s.calls || !s.calls[id].at.Writing? then s else WriteCall(s, id)
    case PostRead(id, carried, allow, cycle, maxCycles) =>
      if id in s.posts || !env.posts(carried, s.stored.version) then s
      else s.(posts := s.posts[id := Post(carried, allow, cycle, maxCycles, s.stored)])
    case PostWrite(id) =>
      if id !in s.posts then s else WritePost(s, id)
  }

  function Run(env: Environment, s: System, steps: seq<Step>): System
    decreases |steps|
  {
    if steps == [] then s else Run(env, Apply(env, s, steps[0]), steps[1..])
  }

  predicate Succeeded(s: System, id: nat) {
    id in s.calls && s.calls[id].at == Answered(Done)
  }

  predicate StatusOf(s: Stored, c: Call) {
    s.phase == PhaseOf(c.decision) && s.decision == Some(c.decision) && s.decidedBy == c.author
  }

  predicate SameStatus(a: Stored, b: Stored) {
    a.phase == b.phase && a.decision == b.decision && a.decidedBy == b.decidedBy
  }

  // ------------------------------------------------------------------ invariant

  /** What was read is not newer than the store, and current if the versions agree. */
  predicate Earlier(read: Stored, stored: Stored) {
    read.version <= stored.version && (read.version == stored.version ==> read == stored)
  }

  /** A post carries a version no later than the one its handler read. */
  predicate Versioned(carried: Option<nat>, read: nat) {
    carried.Some? && carried.value <= read
  }

  ghost predicate Inv(s: System) {
    && (forall id :: id in s.calls && s.calls[id].at.Writing? ==>
          AfterRead(s.calls[id], s.calls[id].at.read).Writing? && Earlier(s.calls[id].at.read, s.stored))
    && (forall id :: id in s.posts ==>
          Versioned(s.posts[id].carried, s.posts[id].read.version) && Earlier(s.posts[id].read, s.stored))
    // a decided approval carries the decision of its one successful call
    && (forall id :: Succeeded(s, id) ==> s.stored.phase != Pending && StatusOf(s.stored, s.calls[id]))
    && (forall i, j :: Succeeded(s, i) && Succeeded(s, j) ==> i == j)
  }

  /** Clients post only versions the store had reached when the handler read, and the
      checkpoint is not reached again once its approval is decided. */
  ghost predicate Careful(env: Environment) {
    && (forall carried, read :: env.posts(carried, read) ==> Versioned(carried, read))
    && (forall phase :: IsDecided(phase) ==> !env.reenters(phase))
  }

  lemma WriteInv(s: System, id: nat)
    requires Inv(s) && id in s.calls && s.calls[id].at.Writing?
    ensures Inv(WriteCall(s, id))
  {
    var s' := WriteCall(s, id);
    assert forall j :: j != id ==> (Succeeded(s', j) <==> Succeeded(s, j));
  }

  /** A careful post that is written read the current status. */
  lemma PostInv(s: System, id: nat)
    requires Inv(s) && id in s.posts
    ensures Inv(WritePost(s, id)) && SameStatus(WritePost(s, id).stored, s.stored)
  {
    var s' := WritePost(s, id);
    assert forall j :: Succeeded(s', j) <==> Succeeded(s, j);
  }

  lemma StepInv(env: Environment, s: System, step: Step)
    requires Inv(s) && Careful(env)
    ensures Inv(Apply(env, s, step))
  {
    var s' := Apply(env, s, step);
    match step
    case Write(id) =>
      if id in s.calls && s.calls[id].at.Writing? {
        WriteInv(s, id);
      }
    case PostWrite(id) =>
      if id in s.posts {
        PostInv(s, id);
      }
    case _ =>
      assert forall j :: Succeeded(s', j) <==> Succeeded(s, j);
  }

  /** Once an approval is decided no step changes the status. */
  lemma DecidedStays(env: Environment, s: System, step: Step)
    requires Inv(s) && Careful(env) && IsDecided(s.stored.phase)
    ensures SameStatus(Apply(env, s, step).stored, s.stored)
  {
    if step.PostWrite? && step.post in s.posts {
      PostInv(s, step.post);
    }
  }

  /** The write that takes effect decides an approval that is pending at that moment, and asks
      for changes only where the stored limits allow another cycle. */
  lemma DecisionWithinLimits(env: Environment, s: System, id: nat)
    requires Inv(s) && !Succeeded(s, id) && Succeeded(Apply(env, s, Write(id)), id)
    ensures s.stored.phase == Pending
    ensures s.calls[id].decision.RequestChanges? ==> s.stored.allowRequestChanges && s.stored.cycle < s.stored.maxCycles
  {
  }

  function Start(stored: Stored, requests: map<nat, (Decision, string)>): System {
    System(stored, map id | id in requests :: Call(requests[id].0, requests[id].1, 0, Reading), map[])
  }

  lemma {:induction false} RunInv(env: Environment, s: System, steps: seq<Step>)
    requires Inv(s) && Careful(env)
    ensures Inv(Run(env, s, steps))
    ensures IsDecided(s.stored.phase) ==> SameStatus(Run(env, s, steps).stored, s.stored)
    decreases |steps|
  {
    if steps != [] {
      StepInv(env, s, steps[0]);
      if IsDecided(s.stored.phase) {
        DecidedStays(env, s, steps[0]);
      }
      RunInv(env, Apply(env, s, steps[0]), steps[1..]);
    }
  }

  /** A decided approval was decided by one of the calls. */
  ghost predicate Attributed(s: System) {
    s.stored.phase != Pending ==> exists id :: Succeeded(s, id)
  }

  lemma StepAttributed(env: Environment, s: System, step: Step)
    requires Inv(s) && Attributed(s)
    ensures Attributed(Apply(env, s, step))
  {
    var s' := Apply(env, s, step);
    assert forall id :: Succeeded(s, id) ==> Succeeded(s', id);
    if step.PostWrite? && step.post in s.posts {
      PostInv(s, step.post);
    } else if s.stored.phase == Pending && s'.stored.phase != Pending {
      assert Succeeded(s', step.call);
    }
  }

  lemma {:induction false} RunAttributed(env: Environment, s: System, steps: seq<Step>)
    requires Inv(s) && Careful(env) && Attributed(s)
    ensures Attributed(Run(env, s, steps))
    decreases |steps|
  {
    if steps != [] {
      StepInv(env, s, steps[0]);
      StepAttributed(env, s, steps[0]);
      RunAttributed(env, Apply(env, s, steps[0]), steps[1..]);
    }
  }

  /** Over any interleaving of decisions and careful posts at most one call succeeds, and the
      stored decision is that call's. */
  lemma AtMostOneDecision(env: Environment, stored: Stored, requests: map<nat, (Decision, string)>, steps: seq<Step>)
    requires Careful(env) && stored.phase == Pending
    ensures var s := Run(env, Start(stored, requests), steps);
            && (forall i, j :: Succeeded(s, i) && Succeeded(s, j) ==> i == j)
            && (forall i :: Succeeded(s, i) ==> StatusOf(s.stored, s.calls[i]))
            && (s.stored.phase != Pending <==> exists i :: Succeeded(s, i))
  {
    RunInv(env, Start(stored, requests), steps);
    RunAttributed(env, Start(stored, requests), steps);
  }

  /** What a successful call leaves in the store. */
  lemma SuccessStores(env: Environment, stored: Stored, requests: map<nat, (Decision, string)>, steps: seq<Step>,
      id: nat)
    requires Careful(env) && stored.phase == Pending && Succeeded(Run(env, Start(stored, requests), steps), id)
    ensures var s := Run(env, Start(stored, requests), steps);
            && id in requests && s.stored.decidedBy == requests[id].1 && s.stored.decision == Some(requests[id].0)
            && (requests[id].0 == Approve ==> s.stored.phase == Approved)
            && (requests[id].0 == Deny ==> s.stored.phase == Denied)
            && (requests[id].0 == RequestChanges ==> s.stored.phase == ChangesRequested)
  {
    AtMostOneDecision(env, stored, requests, steps);
    CallsKept(env, Start(stored, requests), steps, id);
  }

  /** Calls keep their decision and author. */
  lemma {:induction false} CallsKept(env: Environment, s: System, steps: seq<Step>, id: nat)
    ensures var t := Run(env, s, steps);
            (id in t.calls <==> id in s.calls)
            && (id in s.calls ==> t.calls[id].decision == s.calls[id].decision)
            && (id in s.calls ==> t.calls[id].author == s.calls[id].author)
    decreases |steps|
  {
    if steps != [] {
      CallsKept(env, Apply(env, s, steps[0]), steps[1..], id);
    }
  }

  /** The phase leaves Pending at most once: after any prefix that decided it, it is final. */
  lemma DecisionIsFinal(env: Environment, stored: Stored, requests: map<nat, (Decision, string)>, before: seq<Step>,
      after: seq<Step>)
    requires Careful(env)
    ensures var s := Run(env, Start(stored, requests), before);
            IsDecided(s.stored.phase) ==> SameStatus(Run(env, s, after).stored, s.stored)
  {
    RunInv(env, Start(stored, requests), before);
    RunInv(env, Run(env, Start(stored, requests), before), after);
  }

  // ------------------------------------------------------------------- attempts

  /** Steps a call can still take: a read and a write for each attempt left. */
  function StepsLeft(c: Call): int {
    match c.at
    case Answered(_) => 0
    case Reading => 2 * (MAX_ATTEMPTS - c.attempt)
    case Writing(_) => 2 * (MAX_ATTEMPTS - c.attempt) - 1
  }

  /** The step is the call's own and does something. */
  predicate Takes(s: System, step: Step, id: nat) {
    id in s.calls && ((step == Read(id) && s.calls[id].at.Reading?) || (step == Write(id) && s.calls[id].at.Writing?))
  }

  function OwnSteps(env: Environment, s: System, steps: seq<Step>, id: nat): nat
    decreases |steps|
  {
    if steps == [] then 0
    else (if Takes(s, steps[0], id) then 1 else 0) + OwnSteps(env, Apply(env, s, steps[0]), steps[1..], id)
  }

  lemma {:induction false} StepsLeftBound(env: Environment, s: System, steps: seq<Step>, id: nat)
    requires id in s.calls && s.calls[id].attempt < MAX_ATTEMPTS
    ensures var t := Run(env, s, steps);
            id in t.calls && t.calls[id].attempt < MAX_ATTEMPTS
            && OwnSteps(env, s, steps, id) + StepsLeft(t.calls[id]) <= StepsLeft(s.calls[id])
    decreases |steps|
  {
    if steps != [] {
      var s' := Apply(env, s, steps[0]);
      assert id in s'.calls && s'.calls[id].attempt < MAX_ATTEMPTS
             && (if Takes(s, steps[0], id) then 1 else 0) + StepsLeft(s'.calls[id]) <= StepsLeft(s.calls[id]);
      StepsLeftBound(env, s', steps[1..], id);
    }
  }

  /** Whatever else happens, a call takes at most ten steps of its own, and has answered once
      it has taken ten. */
  lemma CallsAnswer(env: Environment, stored: Stored, requests: map<nat, (Decision, string)>, steps: seq<Step>, id: nat)
    requires id in requests
    ensures var s0 := Start(stored, requests);
            var t, own := Run(env, s0, steps), OwnSteps(env, s0, steps, id);
            id in t.calls && own <= 2 * MAX_ATTEMPTS && (own == 2 * MAX_ATTEMPTS ==> t.calls[id].at.Answered?)
  {
    StepsLeftBound(env, Start(stored, requests), steps, id);
  }

  // ---------------------------------------------------------------- stale posts

  /** In every run from a pending approval at most one call succeeds. */
  ghost predicate AtMostOne(env: Environment) {
    forall stored: Stored, requests: map<nat, (Decision, string)>, steps: seq<Step>, i: nat, j: nat ::
      stored.phase == Pending && BothSucceed(env, stored, requests, steps, i, j) ==> i == j
  }

  predicate BothSucceed(env: Environment, stored: Stored, requests: map<nat, (Decision, string)>, steps: seq<Step>,
      i: nat, j: nat) {
    var s := Run(env, Start(stored, requests), steps);
    Succeeded(s, i) && Succeeded(s, j)
  }

  function Bumps(n: nat): seq<Step> {
    seq(n, _ => Bump(true, 1, 3))
  }

  lemma {:induction false} RunConcat(env: Environment, s: System, a: seq<Step>, b: seq<Step>)
    ensures Run(env, s, a + b) == Run(env, Run(env, s, a), b)
    decreases |a|
  {
    if a == [] {
      assert a + b == b;
    } else {
      assert (a + b)[1..] == a[1..] + b;
      RunConcat(env, Apply(env, s, a[0]), a[1..], b);
    }
  }

  /** Unrelated updates move the version on and nothing else that matters here. */
  lemma {:induction false} RunBumps(env: Environment, s: System, n: nat)
    requires s.stored.allowRequestChanges && s.stored.cycle == 1 && s.stored.maxCycles == 3
    ensures Run(env, s, Bumps(n)) == s.(stored := s.stored.(version := s.stored.version + n))
    decreases n
  {
    if n > 0 {
      assert Bumps(n)[1..] == Bumps(n - 1);
      RunBumps(env, Apply(env, s, Bumps(n)[0]), n - 1);
    }
  }

  function TwoDecisions(): map<nat, (Decision, string)> {
    map[1 := (Approve, "a"), 2 := (Deny, "b")]
  }

  /** A post that is not careful puts a stale Pending back: the first call decides at the
      version the post will be compared with, and the second finds the approval open again. */
  lemma StalePostReopens(env: Environment, carried: Option<nat>, read: nat) returns (steps: seq<Step>)
    requires env.posts(carried, read) && !Versioned(carried, read)
    ensures BothSucceed(env, Stored(Pending, None, "", true, 1, 3, read), TwoDecisions(), steps, 1, 2)
  {
    var s0 := Start(Stored(Pending, None, "", true, 1, 3, read), TwoDecisions());
    var n: nat := if carried.Some? then carried.value - read - 1 else 0;
    steps := [PostRead(0, carried, true, 1, 3)] + (Bumps(n) + DECIDE);
    var s1 := Apply(env, s0, steps[0]);
    assert steps[1..] == Bumps(n) + DECIDE;
    BumpThenDecide(env, s1, n);
  }

  const DECIDE: seq<Step> := [Read(1), Write(1), PostWrite(0), Read(2), Write(2)]

  lemma BumpThenDecide(env: Environment, s: System, n: nat)
    requires s.calls == Start(s.stored, TwoDecisions()).calls && s.stored.phase == Pending
    requires s.stored.allowRequestChanges && s.stored.cycle == 1 && s.stored.maxCycles == 3
    requires 0 in s.posts && s.posts[0].read.phase == Pending
    requires s.posts[0].carried.Some? ==> s.posts[0].carried.value == s.stored.version + n + 1
    ensures Succeeded(Run(env, s, Bumps(n) + DECIDE), 1) && Succeeded(Run(env, s, Bumps(n) + DECIDE), 2)
  {
    RunConcat(env, s, Bumps(n), DECIDE);
    RunBumps(env, s, n);
    DecideTwice(env, Run(env, s, Bumps(n)), DECIDE);
  }

  lemma DecideTwice(env: Environment, s: System, steps: seq<Step>)
    requires s.calls == Start(s.stored, TwoDecisions()).calls && s.stored.phase == Pending
    requires 0 in s.posts && s.posts[0].read.phase == Pending
    requires s.posts[0].carried.Some? ==> s.posts[0].carried.value == s.stored.version + 1
    requires steps == [Read(1), Write(1), PostWrite(0), Read(2), Write(2)]
    ensures Succeeded(Run(env, s, steps), 1) && Succeeded(Run(env, s, steps), 2)
  {
    var a := Apply(env, Apply(env, s, Read(1)), Write(1));
    var b := Apply(env, a, PostWrite(0));
    var d := Apply(env, Apply(env, b, Read(2)), Write(2));
    assert Succeeded(a, 1) && a.stored.version == s.stored.version + 1;
    assert b.stored.phase == Pending && b.calls == a.calls;
    assert steps[1..] == [Write(1), PostWrite(0), Read(2), Write(2)];
    assert steps[2..] == [PostWrite(0), Read(2), Write(2)];
    assert Run(env, b, [Read(2), Write(2)]) == d;
    assert Run(env, a, [PostWrite(0), Read(2), Write(2)]) == d;
  }

  /** The checkpoint is reached again after its approval was decided, as when a retried task
      comes to it once more: the fresh approval takes a second decision. */
  lemma RecreationReopens(env: Environment, d: Decision) returns (steps: seq<Step>)
    requires env.reenters(PhaseOf(d))
    ensures BothSucceed(env, OPEN, map[1 := (d, "a"), 2 := (Approve, "b")], steps, 1, 2)
  {
    var s0 := Start(OPEN, map[1 := (d, "a"), 2 := (Approve, "b")]);
    var a := Apply(env, Apply(env, s0, Read(1)), Write(1));
    var b := Apply(env, a, Recreate(true, 3));
    var e := Apply(env, Apply(env, b, Read(2)), Write(2));
    assert Succeeded(a, 1) && a.stored.phase == PhaseOf(d);
    assert b.stored.phase == Pending && b.calls == a.calls;
    assert Succeeded(e, 1) && Succeeded(e, 2);
    var last := [Read(2), Write(2)];
    var three := [Recreate(true, 3)] + last;
    var four := [Write(1)] + three;
    steps := [Read(1)] + four;
    assert steps[1..] == four && four[1..] == three && three[1..] == last;
    assert Run(env, b, last) == e;
    assert Run(env, a, three) == e;
    assert Run(env, Apply(env, s0, Read(1)), four) == e;
  }

  const OPEN := Stored(Pending, None, "", true, 1, 3, 1)

  lemma DecidedBy(phase: Phase) returns (d: Decision)
    requires IsDecided(phase)
    ensures PhaseOf(d) == phase
  {
    d := if phase.Approved? then Approve else if phase.Denied? then Deny else RequestChanges;
  }

  /** At most one decision succeeds, over all runs, exactly when clients post only with a
      resource version no later than the one the handler reads, and no decided checkpoint is
      reached again at the same cycle. */
  lemma AtMostOneExactly(env: Environment)
    ensures AtMostOne(env) <==> Careful(env)
  {
    if Careful(env) {
      forall stored: Stored, requests: map<nat, (Decision, string)>, steps: seq<Step>, i: nat, j: nat |
        stored.phase == Pending && BothSucceed(env, stored, requests, steps, i, j)
        ensures i == j
      {
        AtMostOneDecision(env, stored, requests, steps);
      }
    } else {
      if phase :| IsDecided(phase) && env.reenters(phase) {
        var d := DecidedBy(phase);
        var steps := RecreationReopens(env, d);
      } else {
        var carried, read :| env.posts(carried, read) && !Versioned(carried, read);
        var steps := StalePostReopens(env, carried, read);
      }
    }
  }
}
