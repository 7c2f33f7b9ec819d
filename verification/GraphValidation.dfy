/** Which agent systems a task may run, and where they start: graph validation, the
    entrypoint test and the entry agents. */
module GraphValidation {
  import opened AgentGraph
  import opened ExecutionOrder
  import opened ExecutionTheorems
  import opened GraphCycle
  import opened Lists
  import opened Text

  /** True when some listed agent has no incoming edge. */
  method HasGraphEntrypoint(sys: System, agentSet: set<Agent>) returns (found: bool)
    requires agentSet == Elements(sys.agents)
    ensures sys.graph == map[] ==> (found <==> sys.agents != [])
    ensures sys.graph != map[] ==> (found <==> exists a :: a in sys.agents && !HasPredecessor(sys.graph, a))
  {
    if sys.graph == map[] {
      return sys.agents != [];
    }
    var indegree := CountInDegrees(sys);
    var rest := agentSet;
    while rest != {}
      invariant rest <= agentSet
      invariant forall a :: a in agentSet - rest ==> HasPredecessor(sys.graph, a)
      decreases rest
    {
      var a :| a in rest;
      InDegreeZero(sys.graph, sys.graph.Keys, a);
      if indegree[a] == 0 {
        assert a in sys.agents && !HasPredecessor(sys.graph, a);
        return true;
      }
      ghost var u :| u in sys.graph.Keys && a in sys.graph[u].outgoing;
      assert Edge(sys.graph, u, a);
      rest := rest - {a};
    }
    assert agentSet - rest == Elements(sys.agents);
    return false;
  }

  predicate JoinOk(j: Join) {
    && ToLower(TrimSpace(j.mode)) in {"", "wait_for_all", "quorum"}
    && j.quorumCount >= 0 && 0 <= j.quorumPercent <= 100
    && ToLower(TrimSpace(j.onFailure)) in {"", "deadletter", "skip", "continue_partial"}
  }

  predicate JoinsOk(g: Graph) {
    forall u :: u in g ==> JoinOk(g[u].join)
  }

  /** Reports no error exactly when keys and edge targets are listed and all join options
      are supported. */
  method ValidateGraph(sys: System, agentSet: set<Agent>) returns (ok: bool)
    requires agentSet == Elements(sys.agents)
    ensures ok <==> WellScoped(sys) && JoinsOk(sys.graph)
  {
    ok := true;
    var rest := sys.graph.Keys;
    while rest != {}
      invariant rest <= sys.graph.Keys
      invariant ok ==> sys.graph.Keys - rest <= agentSet
      invariant ok ==> forall u, v :: u in sys.graph.Keys - rest && Edge(sys.graph, u, v) ==> v in sys.agents
      invariant ok ==> forall u :: u in sys.graph.Keys - rest ==> JoinOk(sys.graph[u].join)
      invariant !ok ==> !(WellScoped(sys) && JoinsOk(sys.graph))
      decreases rest
    {
      var u :| u in rest;
      var out := sys.graph[u].outgoing;
      if u !in agentSet || !JoinOk(sys.graph[u].join) {
        ok := false;
      }
      if exists v :: v in out && v !in agentSet {
        ghost var v :| v in out && v !in agentSet;
        assert Edge(sys.graph, u, v);
        ok := false;
      }
      rest := rest - {u};
    }
  }

  /** The graph part of task validation: scope and joins, cycles against max_turns, entrypoint. */
  method GraphAccepted(sys: System, maxTurns: int) returns (ok: bool)
    ensures ok <==> (&& sys.agents != [] && (forall a :: a in sys.agents ==> !Blank(a))
                     && WellScoped(sys) && JoinsOk(sys.graph) && (Cyclic(sys.graph) ==> maxTurns > 0))
  {
    if sys.agents == [] || exists a :: a in sys.agents && Blank(a) {
      return false;
    }
    var agentSet := Elements(sys.agents);
    var scoped := ValidateGraph(sys, agentSet);
    ok := scoped;
    if sys.graph != map[] {
      var hasCycle := HasGraphCycle(sys.graph);
      if hasCycle && maxTurns <= 0 {
        ok := false;
      }
      var entry := HasGraphEntrypoint(sys, agentSet);
      if !entry && !(hasCycle && maxTurns > 0) {
        if scoped && !hasCycle {
          AcyclicHasEntry(sys);
        }
        ok := false;
      }
    } else {
      EmptyAcyclic();
    }
  }

  lemma EmptyAcyclic()
    ensures !Cyclic(map[])
  {
    assert forall p :: Path(map[], p) && |p| >= 2 ==> Edge(map[], p[0], p[0 + 1]);
  }

  /** Every node with its delegates counted as outgoing. */
  function WithDelegates(g: Graph): Graph {
    map u | u in g :: g[u].(outgoing := g[u].outgoing + g[u].delegates)
  }

  /** Entry agents: no incoming edge and no incoming delegation, in declaration order. */
  method EntryAgentsFromSystem(sys: System) returns (entry: seq<Agent>)
    ensures sys.graph == map[] ==>
              entry == if sys.agents == [] || Blank(sys.agents[0]) then [] else [TrimSpace(sys.agents[0])]
    ensures sys.graph != map[] ==> entry == EntryAgents(sys)
  {
    if sys.agents == [] {
      return [];
    }
    if sys.graph == map[] {
      var first := TrimSpace(sys.agents[0]);
      return if first != "" then [first] else [];
    }
    var indegree := CountInDegrees(System(sys.agents, WithDelegates(sys.graph)));
    var queued;
    entry, queued := SeedQueue(sys.agents, indegree);
  }

  ghost function EntryAgents(sys: System): seq<Agent> {
    Sources(sys.agents, InDegrees(System(sys.agents, WithDelegates(sys.graph))))
  }

  /** Exactly the agents nothing hands over or delegates to. */
  lemma EntryAgentsExact(sys: System)
    ensures forall a :: a in EntryAgents(sys) <==>
              a in sys.agents
              && forall u :: u in sys.graph ==> a !in sys.graph[u].outgoing && a !in sys.graph[u].delegates
  {
    var d := WithDelegates(sys.graph);
    SourcesExact(sys.agents, InDegrees(System(sys.agents, d)));
    forall a | a in sys.agents
      ensures InDegree(d, d.Keys, a) == 0 <==>
                forall u :: u in sys.graph ==> a !in sys.graph[u].outgoing && a !in sys.graph[u].delegates
    {
      InDegreeZero(d, d.Keys, a);
      assert forall u :: u in sys.graph ==> d[u].outgoing == sys.graph[u].outgoing + sys.graph[u].delegates;
    }
  }

  /** Without delegations the entry agents, each once, open the execution order. */
  lemma EntryAgentsFirst(sys: System)
    requires sys.graph != map[]
    requires forall u :: u in sys.graph ==> sys.graph[u].delegates == []
    ensures Firsts(EntryAgents(sys)) <= Order(sys)
    ensures Distinct(sys.agents) ==> EntryAgents(sys) <= Order(sys)
  {
    var s := Start(sys);
    assert forall u :: u in sys.graph ==> sys.graph[u].outgoing + [] == sys.graph[u].outgoing;
    assert WithDelegates(sys.graph) == sys.graph;
    SourcesExact(sys.agents, s.indegree);
    assert s.placed + s.queue == s.queue;
    DrainKeepsPrefix(sys.graph, s);
    if Distinct(sys.agents) {
      FirstsDistinct(EntryAgents(sys));
    }
  }
}
