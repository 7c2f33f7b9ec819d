/** The deduplicating work queue of the controllers: its locked operations, and every
    interleaving of producers and consumers with the one-slot wakeup channel. */
module WorkQueue {
  import opened Lists
  import opened Text

  datatype Queue = Queue(pending: set<string>, items: seq<string>)

  function Enqueued(q: Queue, key: string): Queue {
    if key == "" || key in q.pending then q else Queue(q.pending + {key}, q.items + [key])
  }

  function Popped(q: Queue): Queue {
    if q.items == [] then q else q.(items := q.items[1..])
  }

  /** The shared object; `notify` is the buffered wakeup token. */
  class KeyQueue {
    var pending: set<string>
    var items: seq<string>
    var notify: bool

    ghost function State(): Queue
      reads this
    {
      Queue(pending, items)
    }

    constructor ()
      ensures State() == Queue({}, []) && !notify
    {
      pending, items, notify := {}, [], false;
    }

    /** The locked part of an enqueue; true when a wakeup is to be sent. */
    method EnqueueLocked(key: string) returns (added: bool)
      modifies this
      ensures State() == Enqueued(old(State()), TrimSpace(key)) && notify == old(notify)
      ensures added <==> TrimSpace(key) != "" && TrimSpace(key) !in old(pending)
    {
      var k := TrimSpace(key);
      if k == "" || k in pending {
        return false;
      }
      pending := pending + {k};
      items := items + [k];
      return true;
    }

    method Enqueue(key: string)
      modifies this
      ensures State() == Enqueued(old(State()), TrimSpace(key))
      ensures notify == (old(notify) || State() != old(State()))
    {
      var added := EnqueueLocked(key);
      if added {
        notify := true;
      }
    }

    method TryPop() returns (key: string, ok: bool)
      modifies this
      ensures ok <==> old(items) != []
      ensures ok ==> key == old(items)[0]
      ensures State() == Popped(old(State())) && notify == old(notify)
    {
      if |items| == 0 {
        return "", false;
      }
      key, ok := items[0], true;
      items := items[1..];
    }

    method Done(key: string)
      modifies this
      ensures TrimSpace(key) != "" ==> State() == Queue(old(pending) - {TrimSpace(key)}, old(items))
      ensures TrimSpace(key) == "" ==> State() == old(State())
      ensures notify == old(notify)
    {
      var k := TrimSpace(key);
      if k == "" {
        return;
      }
      pending := pending - {k};
    }
  }

  // -------------------------------------------------------------- interleavings

  /** Outside Pop, about to try the queue, or past an empty queue on the way to the channel. */
  datatype Consumer = Outside | Checking | Waiting

  /** `senders` counts producers between the lock and the channel; the logs are history. */
  datatype System = System(
    queue: Queue,
    token: bool,
    senders: nat,
    consumers: map<nat, Consumer>,
    inFlight: set<string>,
    enqueuedLog: seq<string>,
    poppedLog: seq<string>)

  datatype Step =
    | EnqueueLock(key: string)
    | Send
    | EnterPop(consumer: nat)
    | TryPop(consumer: nat)
    | Wake(consumer: nat)
    | Cancel(consumer: nat)
    | Finish(key: string)

  predicate In(s: System, c: nat, at: Consumer) {
    c in s.consumers && s.consumers[c] == at
  }

  /** One atomic step; a step that is not enabled changes nothing. A consumer finishes only
      a key it was handed. */
  function Apply(s: System, step: Step): System {
    match step
    case EnqueueLock(raw) =>
      var key := TrimSpace(raw);
      if key == "" || key in s.queue.pending then s
      else s.(queue := Enqueued(s.queue, key), senders := s.senders + 1, enqueuedLog := s.enqueuedLog + [key])
    case Send =>
      if s.senders == 0 then s else s.(senders := s.senders - 1, token := true)
    case EnterPop(c) =>
      if In(s, c, Outside) then s.(consumers := s.consumers[c := Checking]) else s
    case TryPop(c) =>
      if !In(s, c, Checking) then s
      else if s.queue.items == [] then s.(consumers := s.consumers[c := Waiting])
      else
        s.(queue := Popped(s.queue), consumers := s.consumers[c := Outside],
           inFlight := s.inFlight + {s.queue.items[0]}, poppedLog := s.poppedLog + [s.queue.items[0]])
    case Wake(c) =>
      if In(s, c, Waiting) && s.token then s.(token := false, consumers := s.consumers[c := Checking]) else s
    case Cancel(c) =>
      if In(s, c, Waiting) then s.(consumers := s.consumers[c := Outside]) else s
    case Finish(key) =>
      if key !in s.inFlight then s
      else s.(queue := s.queue.(pending := s.queue.pending - {key}), inFlight := s.inFlight - {key})
  }

  function Run(s: System, steps: seq<Step>): System
    decreases |steps|
  {
    if steps == [] then s else Apply(Run(s, steps[..|steps| - 1]), steps[|steps| - 1])
  }

  function Start(consumers: set<nat>): System {
    System(Queue({}, []), false, 0, map c | c in consumers :: Outside, {}, [], [])
  }

  /** Somebody will look at the queue: a token, a producer about to send one, or a consumer
      that has not yet found the queue empty. */
  ghost predicate Attended(s: System) {
    s.token || s.senders > 0 || exists c :: c in s.consumers && s.consumers[c] != Waiting
  }

  ghost predicate Inv(s: System) {
    && Distinct(s.queue.items)
    && Elements(s.queue.items) !! s.inFlight
    && s.queue.pending == Elements(s.queue.items) + s.inFlight
    && s.enqueuedLog == s.poppedLog + s.queue.items
    && (s.queue.items != [] ==> Attended(s))
  }

  lemma PopInv(s: System, c: nat)
    requires Inv(s) && In(s, c, Checking)
    ensures Inv(Apply(s, TryPop(c)))
  {
    var s' := Apply(s, TryPop(c));
    var items := s.queue.items;
    if items != [] {
      assert Elements(items) == {items[0]} + Elements(items[1..]);
      assert items[0] !in Elements(items[1..]);
      assert items == [items[0]] + items[1..];
      assert c in s'.consumers && s'.consumers[c] == Outside;
    }
  }

  lemma EnqueueInv(s: System, key: string)
    requires Inv(s)
    ensures Inv(Apply(s, EnqueueLock(key)))
  {
  }

  lemma StepInv(s: System, step: Step)
    requires Inv(s)
    ensures Inv(Apply(s, step))
  {
    var s' := Apply(s, step);
    match step
    case EnqueueLock(key) => EnqueueInv(s, key);
    case TryPop(c) =>
      if In(s, c, Checking) {
        PopInv(s, c);
      }
    case EnterPop(c) =>
      if In(s, c, Outside) {
        assert c in s'.consumers && s'.consumers[c] == Checking;
      }
    case Wake(c) =>
      if In(s, c, Waiting) && s.token {
        assert c in s'.consumers && s'.consumers[c] == Checking;
      }
    case Cancel(c) =>
      if In(s, c, Waiting) {
        assert c in s'.consumers && s'.consumers[c] == Outside;
      }
    case Send =>
    case Finish(_) =>
  }

  lemma {:induction false} RunInv(consumers: set<nat>, steps: seq<Step>)
    ensures Inv(Run(Start(consumers), steps))
    decreases |steps|
  {
    if steps != [] {
      RunInv(consumers, steps[..|steps| - 1]);
      StepInv(Run(Start(consumers), steps[..|steps| - 1]), steps[|steps| - 1]);
    }
  }

  /** In every reachable state: pending is the disjoint union of queued and in-flight keys,
      and keys have left in the order they came. */
  lemma QueueSafety(consumers: set<nat>, steps: seq<Step>)
    ensures var s := Run(Start(consumers), steps);
            && Elements(s.queue.items) !! s.inFlight
            && s.queue.pending == Elements(s.queue.items) + s.inFlight
            && s.poppedLog <= s.enqueuedLog
  {
    RunInv(consumers, steps);
  }

  /** The key handed out next is not one still being worked on. */
  lemma NoDoubleHandout(consumers: set<nat>, steps: seq<Step>, c: nat)
    ensures var s := Run(Start(consumers), steps);
            In(s, c, Checking) && s.queue.items != [] ==>
              s.queue.items[0] !in s.inFlight && s.queue.items[0] in Apply(s, TryPop(c)).inFlight
  {
    var s := Run(Start(consumers), steps);
    RunInv(consumers, steps);
    if s.queue.items != [] {
      assert s.queue.items[0] in Elements(s.queue.items);
    }
  }

  /** No lost wakeup: all consumers blocked on a nonempty queue means a token is in the
      channel or on its way. */
  lemma NoLostWakeup(consumers: set<nat>, steps: seq<Step>)
    ensures var s := Run(Start(consumers), steps);
            s.queue.items != [] && (forall c :: c in s.consumers ==> s.consumers[c] == Waiting) ==>
              s.token || s.senders > 0
  {
    RunInv(consumers, steps);
  }

  // ------------------------------------------------------------ prompt wakeups

  /** A blocked consumer beside a nonempty queue is about to be woken, or another consumer is
      about to look. */
  ghost predicate Prompt(s: System) {
    s.queue.items != [] && (exists c :: In(s, c, Waiting)) ==>
      s.token || s.senders > 0 || exists c :: In(s, c, Checking)
  }

  lemma {:induction false} RunConsumers(consumers: set<nat>, steps: seq<Step>)
    ensures Run(Start(consumers), steps).consumers.Keys == consumers
    decreases |steps|
  {
    if steps != [] {
      RunConsumers(consumers, steps[..|steps| - 1]);
    }
  }

  lemma RunSnoc(s: System, steps: seq<Step>, step: Step)
    ensures Run(s, steps + [step]) == Apply(Run(s, steps), step)
  {
    assert (steps + [step])[..|steps|] == steps;
  }

  lemma Arrive(s: System, key: string)
    requires Word(key) && key !in s.queue.pending
    ensures var t := Apply(s, EnqueueLock(key));
            t.queue == Queue(s.queue.pending + {key}, s.queue.items + [key]) && t.senders == s.senders + 1
            && t.token == s.token && t.consumers == s.consumers
  {
    TrimSolid(key);
  }

  /** Two keys arrive at an idle queue and leave one token. */
  lemma TwoArrive(s: System)
    requires s.queue == Queue({}, []) && !s.token && s.senders == 0
    ensures var two := Apply(Apply(s, EnqueueLock("x")), EnqueueLock("y"));
            var t := Apply(Apply(two, Send), Send);
            t.queue.items == ["x", "y"] && t.token && t.senders == 0 && t.consumers == s.consumers
  {
    Arrive(s, "x");
    Arrive(Apply(s, EnqueueLock("x")), "y");
  }

  lemma RunTwoArrive(s0: System, before: seq<Step>) returns (steps: seq<Step>)
    requires var s := Run(s0, before); s.queue == Queue({}, []) && !s.token && s.senders == 0
    ensures var s, t := Run(s0, before), Run(s0, steps);
            t.queue.items == ["x", "y"] && t.token && t.senders == 0 && t.consumers == s.consumers
  {
    TwoArrive(Run(s0, before));
    var one := before + [EnqueueLock("x")];
    var two := one + [EnqueueLock("y")];
    var three := two + [Send];
    steps := three + [Send];
    RunSnoc(s0, before, EnqueueLock("x"));
    RunSnoc(s0, one, EnqueueLock("y"));
    RunSnoc(s0, two, Send);
    RunSnoc(s0, three, Send);
  }

  /** Two consumers block, two keys arrive and share the one token: the first consumer takes a
      key and works on it, while the second stays blocked beside the other key. */
  lemma SecondStaysBlocked(consumers: set<nat>, c: nat, d: nat) returns (steps: seq<Step>)
    requires c in consumers && d in consumers && c != d
    ensures !Prompt(Run(Start(consumers), steps))
  {
    var block := BothBlock(consumers, c, d);
    var full := RunTwoArrive(Start(consumers), block);
    steps := full + [Wake(c)] + [TryPop(c)];
    RunSnoc(Start(consumers), full, Wake(c));
    RunSnoc(Start(consumers), full + [Wake(c)], TryPop(c));
    var t := Run(Start(consumers), steps);
    assert t.queue.items == ["y"] && In(t, d, Waiting);
  }

  lemma BothBlock(consumers: set<nat>, c: nat, d: nat) returns (steps: seq<Step>)
    requires c in consumers && d in consumers && c != d
    ensures var s0 := Start(consumers);
            Run(s0, steps) == s0.(consumers := s0.consumers[c := Waiting][d := Waiting])
  {
    var s0 := Start(consumers);
    var one := [EnterPop(c)];
    var two := one + [TryPop(c)];
    var three := two + [EnterPop(d)];
    steps := three + [TryPop(d)];
    RunSnoc(s0, [], EnterPop(c));
    assert [] + [EnterPop(c)] == one;
    RunSnoc(s0, one, TryPop(c));
    RunSnoc(s0, two, EnterPop(d));
    RunSnoc(s0, three, TryPop(d));
  }

  /** In all runs no consumer stays blocked beside a nonempty queue unattended, exactly with at
      most one consumer. */
  lemma PromptExactly(consumers: set<nat>)
    ensures (forall steps :: Prompt(Run(Start(consumers), steps))) <==> |consumers| <= 1
  {
    if |consumers| <= 1 {
      forall steps
        ensures Prompt(Run(Start(consumers), steps))
      {
        OneConsumerPrompt(consumers, steps);
      }
    } else {
      var c :| c in consumers;
      assert |consumers - {c}| > 0;
      var d :| d in consumers - {c};
      var steps := SecondStaysBlocked(consumers, c, d);
    }
  }

  lemma OneConsumerPrompt(consumers: set<nat>, steps: seq<Step>)
    requires |consumers| <= 1
    ensures Prompt(Run(Start(consumers), steps))
  {
    var s := Run(Start(consumers), steps);
    RunConsumers(consumers, steps);
    NoLostWakeup(consumers, steps);
    if c :| In(s, c, Waiting) {
      forall d | d in consumers
        ensures d == c
      {
        assert {c, d} <= consumers;
        OnlyOne(consumers, c, d);
      }
    }
  }

  lemma OnlyOne(consumers: set<nat>, c: nat, d: nat)
    requires |consumers| <= 1 && c in consumers && d in consumers
    ensures c == d
  {
    assert |consumers - {c}| == 0;
    assert c == d || d in consumers - {c};
  }
}
