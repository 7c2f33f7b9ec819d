/** Execution order of an agent system: Kahn's algorithm with a FIFO queue and the
    declaration-order tail, as a recursive specification with the two loops that compute it. */
module ExecutionOrder {
  import opened AgentGraph
  import opened Lists

  datatype Search = Search(queue: seq<Agent>, placed: seq<Agent>, indegree: map<Agent, int>, queued: set<Agent>)

  // ------------------------------------------------------------- specification

  function RelaxOne(s: Search, to: Agent): (r: Search)
    ensures r.indegree.Keys == s.indegree.Keys && r.placed == s.placed
    ensures r == s.(indegree := r.indegree) || (to in s.indegree.Keys - s.queued && to in r.queued)
    ensures s.queued <= r.queued
  {
    if to !in s.indegree then s
    else
      var s1 := s.(indegree := s.indegree[to := s.indegree[to] - 1]);
      if s1.indegree[to] == 0 && to !in s1.queued
      then s1.(queue := s1.queue + [to], queued := s1.queued + {to})
      else s1
  }

  function Relax(s: Search, outs: seq<Agent>): (r: Search)
    ensures r.indegree.Keys == s.indegree.Keys && r.placed == s.placed
    ensures s.queued <= r.queued
    ensures r.queued == s.queued ==> r.queue == s.queue
    ensures r.queued - s.queued <= s.indegree.Keys
    decreases |outs|
  {
    if outs == [] then s else Relax(RelaxOne(s, outs[0]), outs[1..])
  }

  function Step(g: Graph, s: Search): Search
    requires s.queue != []
  {
    var current := s.queue[0];
    var s1 := s.(queue := s.queue[1..]);
    if current in s1.placed then s1
    else
      var s2 := s1.(placed := s1.placed + [current]);
      if current in g then Relax(s2, g[current].outgoing) else s2
  }

  function Drain(g: Graph, s: Search): seq<Agent>
    decreases s.indegree.Keys - s.queued, |s.queue|
  {
    if s.queue == [] then s.placed else Drain(g, Step(g, s))
  }

  ghost function InDegrees(sys: System): map<Agent, int> {
    map a | a in sys.agents :: InDegree(sys.graph, sys.graph.Keys, a)
  }

  /** The agents of `s` outside `seen`, in order. */
  function Without(s: seq<Agent>, seen: set<Agent>): (r: seq<Agent>) {
    if s == [] then []
    else (if s[0] in seen then [] else [s[0]]) + Without(s[1..], seen)
  }

  /** The agents of `s` with in-degree zero, in order. */
  function Sources(s: seq<Agent>, indegree: map<Agent, int>): (r: seq<Agent>)
    requires forall a :: a in s ==> a in indegree
  {
    if s == [] then []
    else (if indegree[s[0]] == 0 then [s[0]] else []) + Sources(s[1..], indegree)
  }

  ghost function Start(sys: System): Search {
    var q := Sources(sys.agents, InDegrees(sys));
    Search(q, [], InDegrees(sys), Elements(q))
  }

  ghost function KahnPrefix(sys: System): seq<Agent> {
    Drain(sys.graph, Start(sys))
  }

  ghost function Order(sys: System): seq<Agent> {
    if sys.graph == map[] then sys.agents
    else KahnPrefix(sys) + Without(sys.agents, Elements(KahnPrefix(sys)))
  }

  // ------------------------------------------------------------------- methods

  /** In-degrees counted edge by edge, walking the graph's map in any order. */
  method CountInDegrees(sys: System) returns (indegree: map<Agent, int>)
    ensures indegree == InDegrees(sys)
  {
    var g := sys.graph;
    indegree := map a | a in sys.agents :: 0;
    var rest := g.Keys;
    assert g.Keys - rest == {};
    while rest != {}
      invariant rest <= g.Keys && indegree.Keys == Elements(sys.agents)
      invariant forall a :: a in indegree ==> indegree[a] == InDegree(g, g.Keys - rest, a)
      decreases rest
    {
      var u :| u in rest;
      ghost var done := g.Keys - rest;
      var out := g[u].outgoing;
      var i := 0;
      while i < |out|
        invariant 0 <= i <= |out| && indegree.Keys == Elements(sys.agents)
        invariant forall a :: a in indegree ==> indegree[a] == InDegree(g, done, a) + Count(out[..i], a)
      {
        var to := out[i];
        forall a {
          CountAppend(out[..i], to, a);
        }
        assert out[..i + 1] == out[..i] + [to];
        if to in indegree {
          indegree := indegree[to := indegree[to] + 1];
        }
        i := i + 1;
      }
      assert out[..i] == out;
      rest := rest - {u};
      assert g.Keys - rest - {u} == done;
      forall a {
        InDegreeSplit(g, g.Keys - rest, u, a);
      }
    }
    assert g.Keys - rest == g.Keys;
  }

  /** Zero in-degree agents in declaration order, with the set marking them queued. */
  method SeedQueue(agents: seq<Agent>, indegree: map<Agent, int>) returns (queue: seq<Agent>, queued: set<Agent>)
    requires forall a :: a in agents ==> a in indegree
    ensures queue == Sources(agents, indegree) && queued == Elements(queue)
  {
    queue, queued := [], {};
    var i := 0;
    while i < |agents|
      invariant 0 <= i <= |agents| && queued == Elements(queue)
      invariant queue + Sources(agents[i..], indegree) == Sources(agents, indegree)
    {
      var agent := agents[i];
      assert agents[i..][1..] == agents[i + 1..];
      if indegree[agent] == 0 {
        var rest := Sources(agents[i + 1..], indegree);
        assert queue + ([agent] + rest) == queue + [agent] + rest;
        queue := queue + [agent];
        queued := queued + {agent};
      } else {
        assert Sources(agents[i..], indegree) == [] + Sources(agents[i + 1..], indegree);
      }
      i := i + 1;
    }
  }

  /** Decrements the targets of one placed agent and queues those that reach zero. */
  method RelaxEdges(s: Search, out: seq<Agent>) returns (r: Search)
    ensures r == Relax(s, out)
  {
    var queue, indegree, queued := s.queue, s.indegree, s.queued;
    var i := 0;
    while i < |out|
      invariant 0 <= i <= |out|
      invariant Relax(Search(queue, s.placed, indegree, queued), out[i..]) == Relax(s, out)
    {
      var to := out[i];
      assert out[i..][1..] == out[i + 1..];
      if to in indegree {
        indegree := indegree[to := indegree[to] - 1];
        if indegree[to] == 0 && to !in queued {
          queue := queue + [to];
          queued := queued + {to};
        }
      }
      i := i + 1;
    }
    r := Search(queue, s.placed, indegree, queued);
  }

  /** The main loop of Kahn's algorithm, as written in both copies of the source. */
  method DrainQueue(g: Graph, queue0: seq<Agent>, indegree0: map<Agent, int>, queued0: set<Agent>)
    returns (order: seq<Agent>, visited: set<Agent>)
    ensures order == Drain(g, Search(queue0, [], indegree0, queued0)) && visited == Elements(order)
  {
    var s := Search(queue0, [], indegree0, queued0);
    visited := {};
    while s.queue != []
      invariant visited == Elements(s.placed)
      invariant Drain(g, s) == Drain(g, Search(queue0, [], indegree0, queued0))
      decreases s.indegree.Keys - s.queued, |s.queue|
    {
      var current := s.queue[0];
      if current in visited {
        s := s.(queue := s.queue[1..]);
        continue;
      }
      visited := visited + {current};
      if current !in g {
        s := s.(queue := s.queue[1..], placed := s.placed + [current]);
        continue;
      }
      s := RelaxEdges(s.(queue := s.queue[1..], placed := s.placed + [current]), g[current].outgoing);
    }
    order := s.placed;
  }

  method AppendTail(prefix: seq<Agent>, visited: set<Agent>, agents: seq<Agent>) returns (order: seq<Agent>)
    ensures order == prefix + Without(agents, visited)
  {
    order := prefix;
    var i := 0;
    while i < |agents|
      invariant 0 <= i <= |agents|
      invariant order + Without(agents[i..], visited) == prefix + Without(agents, visited)
    {
      var agent := agents[i];
      assert agents[i..][1..] == agents[i + 1..];
      if agent !in visited {
        var rest := Without(agents[i + 1..], visited);
        assert order + ([agent] + rest) == order + [agent] + rest;
        order := order + [agent];
      } else {
        assert Without(agents[i..], visited) == [] + Without(agents[i + 1..], visited);
      }
      i := i + 1;
    }
  }

  /** The controller's order, with its early return when no agent has in-degree zero. */
  method ExecutionAgentOrder(sys: System) returns (order: seq<Agent>)
    ensures order == Order(sys)
  {
    if sys.agents == [] {
      EmptyAgents(sys);
      return [];
    }
    if sys.graph == map[] {
      return sys.agents;
    }
    var indegree := CountInDegrees(sys);
    var queue, queued := SeedQueue(sys.agents, indegree);
    if queue == [] {
      assert KahnPrefix(sys) == [] && Elements(KahnPrefix(sys)) == {};
      WithoutNothing(sys.agents);
      return sys.agents;
    }
    var prefix, visited := DrainQueue(sys.graph, queue, indegree, queued);
    order := AppendTail(prefix, visited, sys.agents);
  }

  /** The command-line copy, which has no early return. */
  method TaskOrderFromSystem(sys: System) returns (order: seq<Agent>)
    ensures order == Order(sys)
  {
    if sys.agents == [] {
      EmptyAgents(sys);
      return [];
    }
    if sys.graph == map[] {
      return sys.agents;
    }
    var indegree := CountInDegrees(sys);
    var queue, queued := SeedQueue(sys.agents, indegree);
    var prefix, seen := DrainQueue(sys.graph, queue, indegree, queued);
    order := AppendTail(prefix, seen, sys.agents);
  }

  lemma EmptyAgents(sys: System)
    requires sys.agents == []
    ensures Order(sys) == []
  {
  }

  lemma {:induction false} WithoutNothing(s: seq<Agent>)
    ensures Without(s, {}) == s
  {
    if s != [] {
      WithoutNothing(s[1..]);
    }
  }
}
