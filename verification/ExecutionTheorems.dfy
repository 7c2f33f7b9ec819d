/** What the execution order means in terms of paths and cycles. */
module ExecutionTheorems {
  import opened AgentGraph
  import opened ExecutionOrder
  import opened Lists

  // ---------------------------------------------------- invariant of the search

  /** Each entry's predecessors all come before it. */
  ghost predicate Topological(g: Graph, s: seq<Agent>) {
    forall i, u :: 0 <= i < |s| && Edge(g, u, s[i]) ==> u in s[..i]
  }

  ghost predicate Inv(sys: System, s: Search) {
    && s.indegree.Keys == Elements(sys.agents)
    && Distinct(s.placed) && Topological(sys.graph, s.placed)
    && Elements(s.placed) + Elements(s.queue) == s.queued
    && s.queued <= Elements(sys.agents)
    && (forall a :: a in s.indegree ==>
          s.indegree[a] == InDegree(sys.graph, sys.graph.Keys - Elements(s.placed), a))
    && (forall a :: a in s.indegree ==> (s.indegree[a] == 0 <==> a in s.queued))
  }

  lemma {:induction false} SourcesExact(s: seq<Agent>, indegree: map<Agent, int>)
    requires forall a :: a in s ==> a in indegree
    ensures forall a :: a in Sources(s, indegree) <==> a in s && indegree[a] == 0
    ensures Distinct(s) ==> Distinct(Sources(s, indegree))
  {
    if s != [] {
      SourcesExact(s[1..], indegree);
      if Distinct(s) {
        forall i | 0 <= i < |s[1..]|
          ensures s[1..][i] != s[0]
        {
          assert s[1..][i] == s[i + 1];
        }
      }
    }
  }

  lemma StartInv(sys: System)
    ensures Inv(sys, Start(sys))
  {
    var s := Start(sys);
    SourcesExact(sys.agents, s.indegree);
    assert sys.graph.Keys - Elements(s.placed) == sys.graph.Keys;
  }

  /** While the edges `outs` of a freshly placed agent are still to be relaxed. */
  ghost predicate RelaxInv(sys: System, s: Search, left: set<Agent>, outs: seq<Agent>)
    requires left <= sys.graph.Keys
  {
    && s.indegree.Keys == Elements(sys.agents)
    && Elements(s.placed) + Elements(s.queue) == s.queued
    && s.queued <= Elements(sys.agents)
    && (forall a :: a in s.indegree ==>
          s.indegree[a] == InDegree(sys.graph, left, a) + Count(outs, a))
    && (forall a :: a in s.indegree ==> (s.indegree[a] == 0 <==> a in s.queued))
  }

  lemma RelaxOneInv(sys: System, s: Search, left: set<Agent>, outs: seq<Agent>)
    requires left <= sys.graph.Keys && outs != [] && RelaxInv(sys, s, left, outs)
    ensures RelaxInv(sys, RelaxOne(s, outs[0]), left, outs[1..])
  {
    var to := outs[0];
    var r := RelaxOne(s, to);
    assert Elements(r.queue) == Elements(s.queue) || Elements(r.queue) == Elements(s.queue) + {to};
    forall a | a in s.indegree
      ensures Count(outs, a) == (if a == to then 1 else 0) + Count(outs[1..], a)
    {
    }
  }

  lemma {:induction false} RelaxAllInv(sys: System, s: Search, left: set<Agent>, outs: seq<Agent>)
    requires left <= sys.graph.Keys && RelaxInv(sys, s, left, outs)
    ensures RelaxInv(sys, Relax(s, outs), left, [])
    decreases |outs|
  {
    if outs != [] {
      RelaxOneInv(sys, s, left, outs);
      RelaxAllInv(sys, RelaxOne(s, outs[0]), left, outs[1..]);
    }
  }

  lemma PlaceTopological(sys: System, s: Search)
    requires Inv(sys, s) && s.queue != [] && s.queue[0] !in s.placed
    ensures Topological(sys.graph, s.placed + [s.queue[0]])
  {
    var g, c := sys.graph, s.queue[0];
    var placed := s.placed + [c];
    assert c in Elements(s.queue);
    InDegreeZero(g, g.Keys - Elements(s.placed), c);
    forall i, u | 0 <= i < |placed| && Edge(g, u, placed[i])
      ensures u in placed[..i]
    {
      if i < |s.placed| {
        assert u in s.placed[..i];
        assert placed[..i] == s.placed[..i];
      } else {
        assert placed[..i] == s.placed;
        assert u !in g.Keys - Elements(s.placed);
      }
    }
  }

  lemma StepInv(sys: System, s: Search)
    requires Inv(sys, s) && s.queue != []
    ensures Inv(sys, Step(sys.graph, s))
  {
    var g, c := sys.graph, s.queue[0];
    assert Elements(s.queue) == {c} + Elements(s.queue[1..]);
    if c !in s.placed {
      PlaceTopological(sys, s);
      var s2 := s.(queue := s.queue[1..], placed := s.placed + [c]);
      assert Elements(s2.placed) == Elements(s.placed) + {c};
      var left := g.Keys - Elements(s2.placed);
      if c in g {
        var outs := g[c].outgoing;
        assert g.Keys - Elements(s.placed) - {c} == left;
        forall a | a in s.indegree
          ensures s.indegree[a] == InDegree(g, left, a) + Count(outs, a)
        {
          InDegreeSplit(g, g.Keys - Elements(s.placed), c, a);
        }
        RelaxAllInv(sys, s2, left, outs);
      } else {
        assert left == g.Keys - Elements(s.placed);
      }
    }
  }

  /** When the queue runs dry, the unplaced agents are those with an unplaced predecessor. */
  ghost predicate Maximal(sys: System, placed: seq<Agent>) {
    forall a :: a in sys.agents && a !in placed ==>
      exists u :: Edge(sys.graph, u, a) && u !in placed
  }

  lemma {:induction false} DrainExact(sys: System, s: Search)
    requires Inv(sys, s)
    ensures var r := Drain(sys.graph, s);
            Distinct(r) && Topological(sys.graph, r) && Elements(r) <= Elements(sys.agents) && Maximal(sys, r)
    decreases s.indegree.Keys - s.queued, |s.queue|
  {
    if s.queue == [] {
      forall a | a in sys.agents && a !in s.placed
        ensures exists u :: Edge(sys.graph, u, a) && u !in s.placed
      {
        assert a in Elements(sys.agents);
        InDegreeZero(sys.graph, sys.graph.Keys - Elements(s.placed), a);
        var u :| u in sys.graph.Keys - Elements(s.placed) && a in sys.graph[u].outgoing;
        assert Edge(sys.graph, u, a);
      }
    } else {
      StepInv(sys, s);
      DrainExact(sys, Step(sys.graph, s));
    }
  }

  // ------------------------------------------------------------ blocked agents

  /** An agent is blocked when a cycle, or a graph key that is not an agent, leads to it. */
  ghost predicate Blocked(sys: System, v: Agent) {
    exists u :: u in sys.graph && Reaches(sys.graph, u, v) && (u !in sys.agents || OnCycle(sys.graph, u))
  }

  /** Walking back along a path from a placed agent stays placed and goes strictly earlier. */
  lemma {:induction false} PathAscends(g: Graph, s: seq<Agent>, p: seq<Agent>, i: nat) returns (j: nat)
    requires Topological(g, s) && Path(g, p) && i < |s| && s[i] == p[|p| - 1]
    ensures j < |s| && s[j] == p[0] && j + |p| - 1 <= i
    decreases |p|
  {
    if |p| == 1 {
      j := i;
    } else {
      assert Edge(g, p[|p| - 2], p[|p| - 2 + 1]);
      var k :| 0 <= k < i && s[..i][k] == p[|p| - 2];
      PathPrefix(g, p, |p| - 1);
      j := PathAscends(g, s, p[..|p| - 1], k);
    }
  }

  lemma PlacedNotBlocked(sys: System, s: seq<Agent>, v: Agent)
    requires Distinct(s) && Topological(sys.graph, s) && Elements(s) <= Elements(sys.agents) && v in s
    ensures !Blocked(sys, v)
  {
    if Blocked(sys, v) {
      var u :| u in sys.graph && Reaches(sys.graph, u, v) && (u !in sys.agents || OnCycle(sys.graph, u));
      var p :| Path(sys.graph, p) && p[0] == u && p[|p| - 1] == v;
      var i :| 0 <= i < |s| && s[i] == v;
      var j := PathAscends(sys.graph, s, p, i);
      assert u in Elements(s);
      var c :| IsCycle(sys.graph, c) && c[0] == u;
      var k := PathAscends(sys.graph, s, c, j);
      assert false;
    }
  }

  /** From an unplaced agent, walk back through unplaced predecessors until the walk leaves
      the agents or repeats itself. */
  lemma {:induction false} UnplacedBlocked(sys: System, placed: seq<Agent>, p: seq<Agent>)
    requires Maximal(sys, placed) && Path(sys.graph, p) && Distinct(p)
    requires p[0] !in placed && p[0] in sys.agents
    ensures Blocked(sys, p[|p| - 1])
    decreases sys.graph.Keys - Elements(p)
  {
    var g, v := sys.graph, p[|p| - 1];
    var u :| Edge(g, u, p[0]) && u !in placed;
    PathPrepend(g, u, p);
    var q := [u] + p;
    assert q[|q| - 1] == v;
    assert Reaches(g, u, v);
    if u in sys.agents {
      if u in p {
        var k :| 0 <= k < |p| && p[k] == u;
        PathPrefix(g, q, k + 2);
        assert IsCycle(g, q[..k + 2]);
      } else {
        assert Elements(q) == Elements(p) + {u};
        assert u in g.Keys - Elements(p);
        UnplacedBlocked(sys, placed, q);
      }
    }
  }

  /** The Kahn prefix is exactly the unblocked agents, each once, in dependency order. */
  lemma KahnPrefixExact(sys: System)
    ensures Distinct(KahnPrefix(sys)) && Topological(sys.graph, KahnPrefix(sys))
    ensures forall a :: a in KahnPrefix(sys) <==> a in sys.agents && !Blocked(sys, a)
  {
    var k := KahnPrefix(sys);
    StartInv(sys);
    DrainExact(sys, Start(sys));
    forall a
      ensures a in k <==> a in sys.agents && !Blocked(sys, a)
    {
      if a in k {
        assert a in Elements(k);
        PlacedNotBlocked(sys, k, a);
      } else if a in sys.agents {
        UnplacedBlocked(sys, k, [a]);
      }
    }
  }

  // -------------------------------------------------- order and the cycle test

  lemma {:induction false} WithoutAll(s: seq<Agent>, seen: set<Agent>)
    requires Elements(s) <= seen
    ensures Without(s, seen) == []
  {
    if s != [] {
      assert s[0] in Elements(s);
      assert Elements(s[1..]) <= Elements(s);
      WithoutAll(s[1..], seen);
    }
  }

  lemma AcyclicUnblocked(sys: System)
    requires !Cyclic(sys.graph) && sys.graph.Keys <= Elements(sys.agents)
    ensures forall a :: !Blocked(sys, a)
  {
  }

  /** An accepted acyclic system runs every agent, each after its predecessors; with a graph it
      runs none twice, even if the agent was listed twice. */
  lemma AcyclicOrder(sys: System)
    requires !Cyclic(sys.graph) && sys.graph.Keys <= Elements(sys.agents)
    ensures Topological(sys.graph, Order(sys)) && Elements(Order(sys)) == Elements(sys.agents)
    ensures sys.graph != map[] ==> Distinct(Order(sys))
    ensures Distinct(sys.agents) ==> multiset(Order(sys)) == multiset(sys.agents)
  {
    if sys.graph != map[] {
      var k := KahnPrefix(sys);
      KahnPrefixExact(sys);
      AcyclicUnblocked(sys);
      assert Elements(k) == Elements(sys.agents);
      WithoutAll(sys.agents, Elements(k));
      assert Order(sys) == k;
      DistinctMultiset(k);
      if Distinct(sys.agents) {
        DistinctMultiset(sys.agents);
      }
    }
  }

  /** The blocked agents of `s`, in the order of `s`. */
  ghost function BlockedAgents(sys: System, s: seq<Agent>): seq<Agent> {
    if s == [] then []
    else (if Blocked(sys, s[0]) then [s[0]] else []) + BlockedAgents(sys, s[1..])
  }

  lemma {:induction false} WithoutUnblocked(sys: System, s: seq<Agent>, seen: set<Agent>)
    requires forall a :: a in s ==> (a in seen <==> !Blocked(sys, a))
    ensures Without(s, seen) == BlockedAgents(sys, s)
  {
    if s != [] {
      WithoutUnblocked(sys, s[1..], seen);
    }
  }

  /** On any graph the order is the unblocked agents in dependency order, then the blocked
      ones as declared. */
  lemma OrderExact(sys: System)
    requires sys.graph != map[]
    ensures Order(sys) == KahnPrefix(sys) + BlockedAgents(sys, sys.agents)
    ensures Distinct(KahnPrefix(sys)) && Topological(sys.graph, KahnPrefix(sys))
    ensures forall a :: a in KahnPrefix(sys) <==> a in sys.agents && !Blocked(sys, a)
  {
    KahnPrefixExact(sys);
    WithoutUnblocked(sys, sys.agents, Elements(KahnPrefix(sys)));
  }

  /** Some agent of an acyclic system has no incoming edge. */
  lemma AcyclicHasEntry(sys: System)
    requires !Cyclic(sys.graph) && sys.graph.Keys <= Elements(sys.agents) && sys.agents != []
    ensures exists a :: a in sys.agents && !HasPredecessor(sys.graph, a)
  {
    KahnPrefixExact(sys);
    AcyclicUnblocked(sys);
    var k := KahnPrefix(sys);
    assert sys.agents[0] in k;
    assert k[..0] == [];
    assert !HasPredecessor(sys.graph, k[0]);
  }

  // ------------------------------------------------------------ what stays first

  ghost predicate Tracked(s: Search) {
    Distinct(s.placed) && Elements(s.placed) + Elements(s.queue) == s.queued
  }

  lemma {:induction false} RelaxGrows(s: Search, outs: seq<Agent>)
    requires Tracked(s)
    ensures Tracked(Relax(s, outs)) && s.queue <= Relax(s, outs).queue
    decreases |outs|
  {
    if outs != [] {
      var r := RelaxOne(s, outs[0]);
      if r.queue != s.queue {
        assert r.queue == s.queue + [outs[0]];
        assert Elements(r.queue) == Elements(s.queue) + {outs[0]};
      }
      RelaxGrows(r, outs[1..]);
    }
  }

  /** One step keeps what is placed and queued, in order, repetitions aside. */
  lemma StepKeepsOrder(g: Graph, s: Search)
    requires Tracked(s) && s.queue != []
    ensures Tracked(Step(g, s)) && Firsts(s.placed + s.queue) <= Firsts(Step(g, s).placed + Step(g, s).queue)
  {
    var c, rest, next := s.queue[0], s.queue[1..], Step(g, s);
    assert Elements(s.queue) == {c} + Elements(rest);
    assert s.placed + s.queue == s.placed + [c] + rest;
    if c in s.placed {
      FirstsRepeat(s.placed, c, rest);
    } else {
      var s2 := s.(queue := rest, placed := s.placed + [c]);
      if c in g {
        RelaxGrows(s2, g[c].outgoing);
      }
      FirstsPrefix(s2.placed + rest, next.placed + next.queue);
    }
  }

  /** Whatever is placed or queued keeps its order to the end, repetitions aside. */
  lemma {:induction false} DrainKeepsPrefix(g: Graph, s: Search)
    requires Tracked(s)
    ensures Firsts(s.placed + s.queue) <= Drain(g, s)
    decreases s.indegree.Keys - s.queued, |s.queue|
  {
    if s.queue == [] {
      assert s.placed + s.queue == s.placed;
      FirstsDistinct(s.placed);
    } else {
      StepKeepsOrder(g, s);
      DrainKeepsPrefix(g, Step(g, s));
    }
  }
}
