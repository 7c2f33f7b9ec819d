/** The order of the Kahn prefix among agents that become free: by the position of the last
    predecessor placed, then by the last place in its outgoing list. */
module ReleaseOrder {
  import opened AgentGraph
  import opened ExecutionOrder
  import opened ExecutionTheorems
  import opened Lists

  /** `v` is set free by the agent at position `p` of `placed`, its last predecessor, at place
      `t` of that agent's outgoing list, the last where `v` occurs. */
  ghost predicate Released(g: Graph, placed: seq<Agent>, v: Agent, p: nat, t: nat) {
    && p < |placed| && placed[p] in g
    && t < |g[placed[p]].outgoing| && g[placed[p]].outgoing[t] == v
    && v !in g[placed[p]].outgoing[t + 1..]
    && forall u :: Edge(g, u, v) ==> u in placed[..p + 1]
  }

  predicate Earlier(p: nat, t: nat, q: nat, r: nat) {
    p < q || (p == q && t < r)
  }

  /** Items are in the order of their release. */
  ghost predicate InOrder(g: Graph, placed: seq<Agent>, items: seq<Agent>) {
    forall i, j, p, t, q, r | 0 <= i < j < |items| ::
      Released(g, placed, items[i], p, t) && Released(g, placed, items[j], q, r) ==> Earlier(p, t, q, r)
  }

  /** What is placed and waiting, each once. */
  function Items(s: Search): seq<Agent> {
    Firsts(s.placed + s.queue)
  }

  lemma {:induction false} FirstsMember(s: seq<string>, x: string)
    ensures x in Firsts(s) <==> x in s
  {
    if s != [] {
      FirstsMember(s[..|s| - 1], x);
      assert s == s[..|s| - 1] + [s[|s| - 1]];
    }
  }

  lemma SuffixMember(outs: seq<Agent>, from: nat, k: nat)
    requires from <= k < |outs|
    ensures outs[k] in outs[from..]
  {
    assert outs[from..][k - from] == outs[k];
  }

  lemma NoneAfter(outs: seq<Agent>, v: Agent, t: nat)
    requires t < |outs| && v !in outs[t + 1..]
    ensures forall k :: t < k < |outs| ==> outs[k] != v
  {
    forall k | t < k < |outs|
      ensures outs[k] in outs[t + 1..]
    {
      SuffixMember(outs, t + 1, k);
    }
  }

  lemma LastPlace(outs: seq<Agent>, v: Agent, t: nat, r: nat)
    requires t < |outs| && outs[t] == v && v !in outs[t + 1..]
    requires r < |outs| && outs[r] == v && v !in outs[r + 1..]
    ensures t == r
  {
    NoneAfter(outs, v, t);
    NoneAfter(outs, v, r);
  }

  /** Positions and places of release are unique. */
  lemma ReleasedOnce(g: Graph, placed: seq<Agent>, v: Agent, p: nat, t: nat, q: nat, r: nat)
    requires Distinct(placed) && Released(g, placed, v, p, t) && Released(g, placed, v, q, r)
    ensures p == q && t == r
  {
    assert Edge(g, placed[p], v) && Edge(g, placed[q], v);
    PlacedWithin(placed, p, q);
    PlacedWithin(placed, q, p);
    LastPlace(g[placed[p]].outgoing, v, t, r);
  }

  lemma PlacedWithin(placed: seq<Agent>, p: nat, q: nat)
    requires Distinct(placed) && p < |placed| && q < |placed| && placed[p] in placed[..q + 1]
    ensures p <= q
  {
  }

  // -------------------------------------------------------------- one relaxation

  /** The last agent placed is handing over: its outgoing agents before place `t` are done. */
  ghost predicate Relaxing(sys: System, s: Search, outs: seq<Agent>, t: nat) {
    && s.placed != [] && Distinct(s.placed) && t <= |outs|
    && s.placed[|s.placed| - 1] in sys.graph && sys.graph[s.placed[|s.placed| - 1]].outgoing == outs
    && RelaxInv(sys, s, sys.graph.Keys - Elements(s.placed), outs[t..])
    && InOrder(sys.graph, s.placed, Items(s))
  }

  lemma CountMember(s: seq<Agent>, v: Agent)
    ensures Count(s, v) > 0 <==> v in s
  {
    CountZero(s, v);
  }

  /** Whoever was waiting already was released before the agent at place `t`. */
  lemma WaitingIsEarlier(sys: System, s: Search, outs: seq<Agent>, t: nat, x: Agent, p: nat, k: nat)
    requires Relaxing(sys, s, outs, t) && t < |outs| && x in s.queued && Released(sys.graph, s.placed, x, p, k)
    ensures Earlier(p, k, |s.placed| - 1, t)
  {
    assert x in Elements(sys.agents);
    CountMember(outs[t..], x);
    if p == |s.placed| - 1 && k >= t {
      SuffixMember(outs, t, k);
    }
  }

  /** The agent set free at place `t` is released by the last agent placed, there. */
  lemma ReleasedNow(sys: System, s: Search, outs: seq<Agent>, t: nat, p: nat, k: nat)
    requires Relaxing(sys, s, outs, t) && t < |outs| && outs[t] in s.indegree && s.indegree[outs[t]] == 1
    requires Released(sys.graph, s.placed, outs[t], p, k)
    ensures p == |s.placed| - 1 && k == t
  {
    var v, m := outs[t], |s.placed| - 1;
    assert Edge(sys.graph, s.placed[m], v);
    PlacedWithin(s.placed, m, p);
    assert outs[t..][0] == v && outs[t..][1..] == outs[t + 1..];
    assert Count(outs[t..], v) == 1 + Count(outs[t + 1..], v);
    CountMember(outs[t + 1..], v);
    LastPlace(outs, v, t, k);
  }

  lemma RelaxOneInOrder(sys: System, s: Search, outs: seq<Agent>, t: nat)
    requires Relaxing(sys, s, outs, t) && t < |outs|
    ensures Relaxing(sys, RelaxOne(s, outs[t]), outs, t + 1)
  {
    var r, left := RelaxOne(s, outs[t]), sys.graph.Keys - Elements(s.placed);
    assert outs[t..][0] == outs[t] && outs[t..][1..] == outs[t + 1..];
    RelaxOneInv(sys, s, left, outs[t..]);
    if r.queue != s.queue {
      AppendInOrder(sys, s, outs, t);
    }
  }

  lemma AppendInOrder(sys: System, s: Search, outs: seq<Agent>, t: nat)
    requires Relaxing(sys, s, outs, t) && t < |outs|
    requires outs[t] in s.indegree && s.indegree[outs[t]] == 1 && outs[t] !in s.queued
    ensures InOrder(sys.graph, s.placed, Firsts(s.placed + (s.queue + [outs[t]])))
  {
    var v, all := outs[t], s.placed + s.queue;
    assert s.placed + (s.queue + [v]) == all + [v] && (all + [v])[..|all|] == all;
    assert v !in all by {
      assert v in all ==> v in Elements(s.placed) + Elements(s.queue);
    }
    assert Firsts(all + [v]) == Items(s) + [v];
    forall i, p, k, q, r | 0 <= i < |Items(s)| && Released(sys.graph, s.placed, Items(s)[i], p, k)
                           && Released(sys.graph, s.placed, v, q, r)
      ensures Earlier(p, k, q, r)
    {
      FirstsMember(all, Items(s)[i]);
      assert Items(s)[i] in Elements(s.placed) + Elements(s.queue);
      WaitingIsEarlier(sys, s, outs, t, Items(s)[i], p, k);
      ReleasedNow(sys, s, outs, t, q, r);
    }
    SnocInOrder(sys.graph, s.placed, Items(s), v);
  }

  lemma SnocInOrder(g: Graph, placed: seq<Agent>, items: seq<Agent>, v: Agent)
    requires InOrder(g, placed, items)
    requires forall i, p, t, q, r | 0 <= i < |items| ::
               Released(g, placed, items[i], p, t) && Released(g, placed, v, q, r) ==> Earlier(p, t, q, r)
    ensures InOrder(g, placed, items + [v])
  {
  }

  lemma {:induction false} RelaxInOrder(sys: System, s: Search, outs: seq<Agent>, t: nat)
    requires Relaxing(sys, s, outs, t)
    ensures var r := Relax(s, outs[t..]); InOrder(sys.graph, r.placed, Items(r))
    decreases |outs| - t
  {
    if t < |outs| {
      assert outs[t..][0] == outs[t] && outs[t..][1..] == outs[t + 1..];
      RelaxOneInOrder(sys, s, outs, t);
      RelaxInOrder(sys, RelaxOne(s, outs[t]), outs, t + 1);
    }
  }

  // ------------------------------------------------------------------ one step

  /** Placing an agent releases nobody who was waiting already. */
  lemma PlacingKeepsReleases(sys: System, s: Search, c: Agent, x: Agent, p: nat, t: nat)
    requires Inv(sys, s) && c !in s.placed && x in s.queued && Released(sys.graph, s.placed + [c], x, p, t)
    ensures p < |s.placed| && Released(sys.graph, s.placed, x, p, t)
  {
    var g, more := sys.graph, s.placed + [c];
    assert x in s.indegree;
    InDegreeZero(g, g.Keys - Elements(s.placed), x);
    assert Edge(g, more[p], x);
    assert more[p] in g.Keys && more[p] !in g.Keys - Elements(s.placed);
    assert more[p] in s.placed;
    assert more[..p + 1] == s.placed[..p + 1];
  }

  lemma PlacingInOrder(sys: System, s: Search)
    requires Inv(sys, s) && s.queue != [] && s.queue[0] !in s.placed && InOrder(sys.graph, s.placed, Items(s))
    ensures InOrder(sys.graph, s.placed + [s.queue[0]], Items(s))
  {
    var g, c := sys.graph, s.queue[0];
    forall i, j, p, t, q, r | 0 <= i < j < |Items(s)| && Released(g, s.placed + [c], Items(s)[i], p, t)
                              && Released(g, s.placed + [c], Items(s)[j], q, r)
      ensures Earlier(p, t, q, r)
    {
      ItemQueued(sys, s, i);
      ItemQueued(sys, s, j);
      PlacingKeepsReleases(sys, s, c, Items(s)[i], p, t);
      PlacingKeepsReleases(sys, s, c, Items(s)[j], q, r);
    }
  }

  lemma ItemQueued(sys: System, s: Search, i: nat)
    requires Inv(sys, s) && i < |Items(s)|
    ensures Items(s)[i] in s.queued
  {
    FirstsMember(s.placed + s.queue, Items(s)[i]);
    assert Items(s)[i] in Elements(s.placed) + Elements(s.queue);
  }

  lemma StepInOrder(sys: System, s: Search)
    requires Inv(sys, s) && s.queue != [] && InOrder(sys.graph, s.placed, Items(s))
    ensures var n := Step(sys.graph, s); InOrder(sys.graph, n.placed, Items(n))
  {
    var g, c, rest := sys.graph, s.queue[0], s.queue[1..];
    assert s.placed + s.queue == s.placed + [c] + rest;
    if c in s.placed {
      FirstsRepeat(s.placed, c, rest);
    } else {
      PlacingInOrder(sys, s);
      var s2 := s.(queue := rest, placed := s.placed + [c]);
      if c in g {
        StartRelaxing(sys, s, s2);
        RelaxInOrder(sys, s2, g[c].outgoing, 0);
        assert g[c].outgoing[0..] == g[c].outgoing;
      }
    }
  }

  lemma StartRelaxing(sys: System, s: Search, s2: Search)
    requires Inv(sys, s) && s.queue != [] && s.queue[0] !in s.placed && s.queue[0] in sys.graph
    requires s2 == s.(queue := s.queue[1..], placed := s.placed + [s.queue[0]])
    requires InOrder(sys.graph, s2.placed, Items(s2))
    ensures Relaxing(sys, s2, sys.graph[s.queue[0]].outgoing, 0)
  {
    var g, c := sys.graph, s.queue[0];
    var outs := g[c].outgoing;
    assert outs[0..] == outs;
    assert Elements(s.queue) == {c} + Elements(s2.queue) && Elements(s2.placed) == Elements(s.placed) + {c};
    assert g.Keys - Elements(s.placed) - {c} == g.Keys - Elements(s2.placed);
    forall a | a in s.indegree
      ensures s.indegree[a] == InDegree(g, g.Keys - Elements(s2.placed), a) + Count(outs, a)
    {
      InDegreeSplit(g, g.Keys - Elements(s.placed), c, a);
    }
  }

  lemma {:induction false} DrainInOrder(sys: System, s: Search)
    requires Inv(sys, s) && InOrder(sys.graph, s.placed, Items(s))
    ensures InOrder(sys.graph, Drain(sys.graph, s), Drain(sys.graph, s))
    decreases s.indegree.Keys - s.queued, |s.queue|
  {
    if s.queue == [] {
      assert s.placed + s.queue == s.placed;
      FirstsDistinct(s.placed);
    } else {
      StepInv(sys, s);
      StepInOrder(sys, s);
      DrainInOrder(sys, Step(sys.graph, s));
    }
  }

  // ------------------------------------------------------------------- the order

  lemma StartInOrder(sys: System)
    ensures InOrder(sys.graph, Start(sys).placed, Items(Start(sys)))
  {
  }

  /** Every agent of the prefix that has a predecessor is released by one. */
  lemma ReleasedExists(sys: System, v: Agent) returns (p: nat, t: nat)
    requires v in KahnPrefix(sys) && HasPredecessor(sys.graph, v)
    ensures Released(sys.graph, KahnPrefix(sys), v, p, t)
  {
    var g, k := sys.graph, KahnPrefix(sys);
    KahnPrefixExact(sys);
    var i :| 0 <= i < |k| && k[i] == v;
    p := LastPredecessor(g, k, v, i);
    t := LastOf(g[k[p]].outgoing, v);
  }

  /** The last predecessor among the agents before position `i`, which are all of them. */
  lemma {:induction false} LastPredecessor(g: Graph, k: seq<Agent>, v: Agent, i: nat) returns (p: nat)
    requires i <= |k| && HasPredecessor(g, v) && forall u :: Edge(g, u, v) ==> u in k[..i]
    ensures p < i && Edge(g, k[p], v) && forall u :: Edge(g, u, v) ==> u in k[..p + 1]
    decreases i
  {
    var u :| Edge(g, u, v);
    assert u in k[..i];
    if Edge(g, k[i - 1], v) {
      p := i - 1;
    } else {
      assert k[..i] == k[..i - 1] + [k[i - 1]];
      p := LastPredecessor(g, k, v, i - 1);
    }
  }

  lemma {:induction false} LastOf(s: seq<Agent>, v: Agent) returns (t: nat)
    requires v in s
    ensures t < |s| && s[t] == v && v !in s[t + 1..]
  {
    var n := |s| - 1;
    if s[n] == v {
      t := n;
    } else {
      assert s == s[..n] + [s[n]];
      t := LastOf(s[..n], v);
      assert s[t + 1..] == s[..n][t + 1..] + [s[n]];
    }
  }

  lemma OrderIff(g: Graph, k: seq<Agent>, i: nat, j: nat, p: nat, t: nat, q: nat, r: nat)
    requires Distinct(k) && InOrder(g, k, k) && i < |k| && j < |k|
    requires Released(g, k, k[i], p, t) && Released(g, k, k[j], q, r)
    ensures i < j <==> Earlier(p, t, q, r)
  {
    if i == j {
      ReleasedOnce(g, k, k[i], p, t, q, r);
    } else if j < i {
      assert Earlier(q, r, p, t);
    }
  }

  lemma PrefixInOrder(sys: System)
    ensures InOrder(sys.graph, KahnPrefix(sys), KahnPrefix(sys))
  {
    StartInv(sys);
    StartInOrder(sys);
    DrainInOrder(sys, Start(sys));
  }

  /** Of two agents that have predecessors, the one whose last-placed predecessor comes first
      runs first; with the same one, the one whose last place in its outgoing list is first. */
  lemma SiblingOrder(sys: System, i: nat, j: nat, p: nat, t: nat, q: nat, r: nat)
    requires i < |KahnPrefix(sys)| && j < |KahnPrefix(sys)|
    requires Released(sys.graph, KahnPrefix(sys), KahnPrefix(sys)[i], p, t)
    requires Released(sys.graph, KahnPrefix(sys), KahnPrefix(sys)[j], q, r)
    ensures i < j <==> Earlier(p, t, q, r)
  {
    KahnPrefixExact(sys);
    PrefixInOrder(sys);
    OrderIff(sys.graph, KahnPrefix(sys), i, j, p, t, q, r);
  }

  // --------------------------------------------------------------- entry agents

  /** `x` is listed before `y` is. */
  ghost predicate ListedBefore(agents: seq<Agent>, x: Agent, y: Agent) {
    exists i :: 0 <= i < |agents| && agents[i] == x && y !in agents[..i + 1]
  }

  /** Agents without predecessors come first, as listed. */
  ghost predicate EntriesFirst(g: Graph, agents: seq<Agent>, k: seq<Agent>) {
    forall i, j :: 0 <= i < j < |k| && !HasPredecessor(g, k[j]) ==>
      !HasPredecessor(g, k[i]) && ListedBefore(agents, k[i], k[j])
  }

  lemma {:induction false} SourcesSnoc(s: seq<Agent>, x: Agent, indegree: map<Agent, int>)
    requires forall a :: a in s + [x] ==> a in indegree
    ensures (forall a :: a in s ==> a in indegree) && x in indegree
    ensures Sources(s + [x], indegree) == Sources(s, indegree) + if indegree[x] == 0 then [x] else []
  {
    assert forall a :: a in s ==> a in s + [x];
    assert (s + [x])[|s|] == x;
    if s != [] {
      assert (s + [x])[1..] == s[1..] + [x] && (s + [x])[0] == s[0];
      SourcesSnoc(s[1..], x, indegree);
    }
  }

  lemma FirstSources(init: seq<Agent>, x: Agent, indegree: map<Agent, int>)
    requires forall a :: a in init + [x] ==> a in indegree
    ensures (forall a :: a in init ==> a in indegree) && x in indegree
    ensures Firsts(Sources(init + [x], indegree)) ==
              Firsts(Sources(init, indegree)) + if indegree[x] == 0 && x !in Sources(init, indegree) then [x] else []
  {
    SourcesSnoc(init, x, indegree);
    var before := Sources(init, indegree);
    assert before + [] == before && (before + [x])[..|before|] == before;
  }

  /** The first occurrences of the sources of `s` are in the order of `s`. */
  lemma {:induction false} SourcesListed(s: seq<Agent>, indegree: map<Agent, int>, i: nat, j: nat)
    requires (forall a :: a in s ==> a in indegree) && i < j < |Firsts(Sources(s, indegree))|
    ensures ListedBefore(s, Firsts(Sources(s, indegree))[i], Firsts(Sources(s, indegree))[j])
    decreases |s|
  {
    if s != [] {
      var init, x := s[..|s| - 1], s[|s| - 1];
      assert s == init + [x];
      FirstSources(init, x, indegree);
      var firsts := Firsts(Sources(init, indegree));
      if j < |firsts| {
        SourcesListed(init, indegree, i, j);
        ListedLonger(init, x, firsts[i], firsts[j]);
      } else {
        FirstsMember(Sources(init, indegree), firsts[i]);
        SourcesExact(init, indegree);
        ListedLast(init, firsts[i], x);
      }
    }
  }

  lemma ListedLast(s: seq<Agent>, y: Agent, x: Agent)
    requires y in s && x !in s
    ensures ListedBefore(s + [x], y, x)
  {
    var n :| 0 <= n < |s| && s[n] == y;
    assert (s + [x])[n] == y && (s + [x])[..n + 1] == s[..n + 1];
  }

  lemma ListedLonger(s: seq<Agent>, x: Agent, u: Agent, v: Agent)
    requires ListedBefore(s, u, v)
    ensures ListedBefore(s + [x], u, v)
  {
    var i :| 0 <= i < |s| && s[i] == u && v !in s[..i + 1];
    assert (s + [x])[i] == u && (s + [x])[..i + 1] == s[..i + 1];
  }

  lemma ListedOneWay(s: seq<Agent>, x: Agent, y: Agent)
    requires ListedBefore(s, x, y)
    ensures !ListedBefore(s, y, x)
  {
  }

  lemma PrefixEntriesFirst(sys: System)
    ensures EntriesFirst(sys.graph, sys.agents, KahnPrefix(sys))
  {
    var g, k, entries := sys.graph, KahnPrefix(sys), Firsts(Start(sys).queue);
    KahnPrefixExact(sys);
    EntriesPrefix(sys);
    forall i, j | 0 <= i < j < |k| && !HasPredecessor(g, k[j])
      ensures !HasPredecessor(g, k[i]) && ListedBefore(sys.agents, k[i], k[j])
    {
      assert k[j] in k && k[i] in k;
      SourceMember(sys, k[j]);
      var n :| 0 <= n < |entries| && entries[n] == k[j];
      assert k[n] == entries[n];
      assert entries[i] in entries && entries[i] == k[i];
      SourceMember(sys, k[i]);
      SourcesListed(sys.agents, Start(sys).indegree, i, j);
    }
  }

  lemma EntriesPrefix(sys: System)
    ensures Firsts(Start(sys).queue) <= KahnPrefix(sys)
  {
    var s := Start(sys);
    StartInv(sys);
    assert s.placed + s.queue == s.queue;
    DrainKeepsPrefix(sys.graph, s);
  }

  lemma SourceMember(sys: System, a: Agent)
    requires a in sys.agents
    ensures a in Firsts(Start(sys).queue) <==> !HasPredecessor(sys.graph, a)
  {
    var g, s := sys.graph, Start(sys);
    SourcesExact(sys.agents, s.indegree);
    FirstsMember(s.queue, a);
    InDegreeZero(g, g.Keys, a);
    if !HasPredecessor(g, a) {
      assert forall u :: u in g.Keys ==> !Edge(g, u, a);
    } else {
      var u :| Edge(g, u, a);
      assert u in g.Keys;
    }
  }

  // -------------------------------------------------------------- determination

  /** The rule of the execution order, in terms of the graph alone. */
  ghost predicate FollowsRule(sys: System, k: seq<Agent>) {
    && Distinct(k) && Topological(sys.graph, k)
    && (forall a :: a in k <==> a in sys.agents && !Blocked(sys, a))
    && EntriesFirst(sys.graph, sys.agents, k)
    && InOrder(sys.graph, k, k)
  }

  /** With the agents of `start` placed, the rule puts `x` before `y`. */
  ghost predicate Precedes(sys: System, start: seq<Agent>, x: Agent, y: Agent) {
    if HasPredecessor(sys.graph, x) then
      exists p, t, q, r ::
        Released(sys.graph, start, x, p, t) && Released(sys.graph, start, y, q, r) && Earlier(p, t, q, r)
    else !HasPredecessor(sys.graph, y) ==> ListedBefore(sys.agents, x, y)
  }

  lemma PrecedesOneWay(sys: System, start: seq<Agent>, x: Agent, y: Agent)
    requires Distinct(start) && Precedes(sys, start, x, y)
              && (HasPredecessor(sys.graph, x) <==> HasPredecessor(sys.graph, y))
    ensures !Precedes(sys, start, y, x)
  {
    var g := sys.graph;
    if !HasPredecessor(g, x) {
      ListedOneWay(sys.agents, x, y);
    } else {
      var p, t, q, r :| Released(g, start, x, p, t) && Released(g, start, y, q, r) && Earlier(p, t, q, r);
      forall p', t', q', r' | Released(g, start, y, q', r') && Released(g, start, x, p', t')
        ensures !Earlier(q', r', p', t')
      {
        ReleasedOnce(g, start, x, p, t, p', t');
        ReleasedOnce(g, start, y, q, r, q', r');
      }
    }
  }

  /** A release depends only on what is placed before. */
  lemma ReleasedStart(g: Graph, k: seq<Agent>, n: nat, v: Agent, p: nat, t: nat)
    requires n <= |k| && p < n
    ensures Released(g, k, v, p, t) <==> Released(g, k[..n], v, p, t)
  {
    assert k[..n][p] == k[p] && k[..n][..p + 1] == k[..p + 1];
  }

  /** An agent whose predecessors are all before position `n` is released there. */
  lemma ReleasedBefore(g: Graph, k: seq<Agent>, n: nat, v: Agent) returns (p: nat, t: nat)
    requires n <= |k| && HasPredecessor(g, v) && forall u :: Edge(g, u, v) ==> u in k[..n]
    ensures p < n && Released(g, k, v, p, t)
  {
    p := LastPredecessor(g, k, v, n);
    t := LastOf(g[k[p]].outgoing, v);
  }

  /** In an order that follows the rule, the agent at `n` precedes any later one that could
      stand there. */
  lemma RuleDecides(sys: System, k: seq<Agent>, n: nat, j: nat)
    requires FollowsRule(sys, k) && n < j < |k| && forall u :: Edge(sys.graph, u, k[j]) ==> u in k[..n]
    ensures Precedes(sys, k[..n], k[n], k[j])
    ensures HasPredecessor(sys.graph, k[n]) ==> HasPredecessor(sys.graph, k[j])
  {
    var g := sys.graph;
    if HasPredecessor(g, k[n]) {
      assert HasPredecessor(g, k[j]);
      var p, t := ReleasedBefore(g, k, n, k[n]);
      var q, r := ReleasedBefore(g, k, n, k[j]);
      ReleasedStart(g, k, n, k[n], p, t);
      ReleasedStart(g, k, n, k[j], q, r);
      assert Earlier(p, t, q, r);
    }
  }

  lemma SameElementsSameLength(k: seq<Agent>, l: seq<Agent>)
    requires Distinct(k) && Distinct(l) && forall a :: a in k <==> a in l
    ensures |k| == |l|
  {
    DistinctSize(k);
    DistinctSize(l);
    assert Elements(k) == Elements(l);
  }

  /** An element beyond a common prefix lies beyond it in both. */
  lemma LaterIn(k: seq<Agent>, l: seq<Agent>, n: nat) returns (i: nat)
    requires Distinct(k) && n < |k| && n < |l| && k[..n] == l[..n] && k[n] in l && l[n] != k[n]
    ensures n < i < |l| && l[i] == k[n]
  {
    assert forall j :: 0 <= j < n ==> l[j] == l[..n][j] == k[..n][j] == k[j];
    i :| 0 <= i < |l| && l[i] == k[n];
  }

  /** Two orders that follow the rule do not part ways. */
  lemma SameNext(sys: System, k: seq<Agent>, l: seq<Agent>, n: nat)
    requires FollowsRule(sys, k) && FollowsRule(sys, l) && n < |k| == |l| && k[..n] == l[..n]
    ensures k[n] == l[n]
  {
    assert k[n] in k && l[n] in l;
    if k[n] != l[n] {
      var i := LaterIn(k, l, n);
      var j := LaterIn(l, k, n);
      NextDecided(sys, k, l, n, j);
      NextDecided(sys, l, k, n, i);
      DistinctStart(k, n);
      PrecedesOneWay(sys, k[..n], k[n], l[n]);
    }
  }

  lemma DistinctStart(k: seq<Agent>, n: nat)
    requires Distinct(k) && n <= |k|
    ensures Distinct(k[..n])
  {
  }

  /** What comes next in `k` precedes what comes next in `l`, if that stands later in `k`. */
  lemma NextDecided(sys: System, k: seq<Agent>, l: seq<Agent>, n: nat, j: nat)
    requires FollowsRule(sys, k) && FollowsRule(sys, l) && n < j < |k| && n < |l|
    requires k[..n] == l[..n] && k[j] == l[n]
    ensures Precedes(sys, k[..n], k[n], l[n])
    ensures HasPredecessor(sys.graph, k[n]) ==> HasPredecessor(sys.graph, l[n])
  {
    RuleDecides(sys, k, n, j);
  }

  lemma {:induction false} RulePrefix(sys: System, k: seq<Agent>, l: seq<Agent>, n: nat)
    requires FollowsRule(sys, k) && FollowsRule(sys, l) && n <= |k| == |l|
    ensures k[..n] == l[..n]
    decreases n
  {
    if n > 0 {
      RulePrefix(sys, k, l, n - 1);
      SameNext(sys, k, l, n - 1);
      assert k[..n] == k[..n - 1] + [k[n - 1]] && l[..n] == l[..n - 1] + [l[n - 1]];
    }
  }

  /** The Kahn prefix is the one order that follows the rule. */
  lemma PrefixDetermined(sys: System, k: seq<Agent>)
    ensures k == KahnPrefix(sys) <==> FollowsRule(sys, k)
  {
    KahnPrefixExact(sys);
    PrefixEntriesFirst(sys);
    PrefixInOrder(sys);
    var kahn := KahnPrefix(sys);
    assert FollowsRule(sys, kahn);
    if FollowsRule(sys, k) {
      SameElementsSameLength(k, kahn);
      RulePrefix(sys, k, kahn, |k|);
      assert k[..|k|] == k && kahn[..|kahn|] == kahn;
    }
  }

  /** The tail takes the blocked agents as listed: one more listed agent comes last or not at all. */
  lemma {:induction false} BlockedSnoc(sys: System, s: seq<Agent>, x: Agent)
    ensures BlockedAgents(sys, s + [x]) == BlockedAgents(sys, s) + if Blocked(sys, x) then [x] else []
  {
    if s == [] {
      assert s + [x] == [x];
    } else {
      var first, last := if Blocked(sys, s[0]) then [s[0]] else [], if Blocked(sys, x) then [x] else [];
      assert (s + [x])[1..] == s[1..] + [x] && (s + [x])[0] == s[0];
      BlockedSnoc(sys, s[1..], x);
      assert BlockedAgents(sys, s + [x]) == first + (BlockedAgents(sys, s[1..]) + last);
    }
  }
}
