/** Agent systems as directed graphs: paths, cycles and in-degrees.
    A graph node carries its normalized outgoing agents in route order (a name may
    repeat), the targets of its delegates, and its join options. */
module AgentGraph {
  import opened Lists

  type Agent = string

  /** How a node waits for several predecessors. */
  datatype Join = Join(mode: string, quorumCount: int, quorumPercent: int, onFailure: string)

  datatype Node = Node(outgoing: seq<Agent>, delegates: seq<Agent>, join: Join)

  type Graph = map<Agent, Node>

  datatype System = System(agents: seq<Agent>, graph: Graph)

  predicate Edge(g: Graph, u: Agent, v: Agent) {
    u in g && v in g[u].outgoing
  }

  /** A nonempty walk along edges; a single agent is a walk of length zero. */
  predicate Path(g: Graph, p: seq<Agent>) {
    |p| > 0 && forall i :: 0 <= i < |p| - 1 ==> Edge(g, p[i], p[i + 1])
  }

  ghost predicate Reaches(g: Graph, u: Agent, v: Agent) {
    exists p :: Path(g, p) && p[0] == u && p[|p| - 1] == v
  }

  predicate IsCycle(g: Graph, p: seq<Agent>) {
    |p| >= 2 && Path(g, p) && p[0] == p[|p| - 1]
  }

  ghost predicate Cyclic(g: Graph) {
    exists p :: IsCycle(g, p)
  }

  ghost predicate OnCycle(g: Graph, u: Agent) {
    exists p :: IsCycle(g, p) && p[0] == u
  }

  ghost predicate HasPredecessor(g: Graph, a: Agent) {
    exists u :: Edge(g, u, a)
  }

  /** What the graph validation of a task accepts: keys and edge targets are listed agents. */
  ghost predicate WellScoped(sys: System) {
    && sys.graph.Keys <= Elements(sys.agents)
    && forall u, v :: Edge(sys.graph, u, v) ==> v in sys.agents
  }

  lemma PathAppend(g: Graph, p: seq<Agent>, v: Agent)
    requires Path(g, p) && Edge(g, p[|p| - 1], v)
    ensures Path(g, p + [v])
  {
  }

  lemma PathPrepend(g: Graph, u: Agent, p: seq<Agent>)
    requires Path(g, p) && Edge(g, u, p[0])
    ensures Path(g, [u] + p)
  {
  }

  lemma PathSuffix(g: Graph, p: seq<Agent>, k: nat)
    requires Path(g, p) && k < |p|
    ensures Path(g, p[k..])
  {
  }

  lemma PathPrefix(g: Graph, p: seq<Agent>, k: nat)
    requires Path(g, p) && 0 < k <= |p|
    ensures Path(g, p[..k])
  {
  }

  // ---------------------------------------------------------------- in-degrees

  function Count(s: seq<Agent>, v: Agent): nat {
    if s == [] then 0 else (if s[0] == v then 1 else 0) + Count(s[1..], v)
  }

  lemma {:induction false} CountZero(s: seq<Agent>, v: Agent)
    ensures Count(s, v) == 0 <==> v !in s
  {
    if s != [] {
      CountZero(s[1..], v);
    }
  }

  lemma {:induction false} CountAppend(s: seq<Agent>, x: Agent, v: Agent)
    ensures Count(s + [x], v) == Count(s, v) + (if x == v then 1 else 0)
  {
    if s == [] {
      assert s + [x] == [x];
    } else {
      assert (s + [x])[1..] == s[1..] + [x];
      CountAppend(s[1..], x, v);
    }
  }

  /** Number of edge occurrences from the keys in `from` into `v`. */
  ghost function InDegree(g: Graph, from: set<Agent>, v: Agent): nat
    requires from <= g.Keys
  {
    if from == {} then 0
    else
      var u :| u in from;
      Count(g[u].outgoing, v) + InDegree(g, from - {u}, v)
  }

  /** The sum does not depend on the order in which the map is walked. */
  lemma {:induction false} InDegreeSplit(g: Graph, from: set<Agent>, u: Agent, v: Agent)
    requires from <= g.Keys && u in from
    ensures InDegree(g, from, v) == Count(g[u].outgoing, v) + InDegree(g, from - {u}, v)
    decreases from
  {
    var w :| w in from && InDegree(g, from, v) == Count(g[w].outgoing, v) + InDegree(g, from - {w}, v);
    if w != u {
      InDegreeSplit(g, from - {w}, u, v);
      InDegreeSplit(g, from - {u}, w, v);
      assert from - {w} - {u} == from - {u} - {w};
    }
  }

  lemma {:induction false} InDegreeZero(g: Graph, from: set<Agent>, v: Agent)
    requires from <= g.Keys
    ensures InDegree(g, from, v) == 0 <==> forall u :: u in from ==> v !in g[u].outgoing
    decreases from
  {
    if from != {} {
      var u :| u in from;
      InDegreeSplit(g, from, u, v);
      InDegreeZero(g, from - {u}, v);
      CountZero(g[u].outgoing, v);
    }
  }
}
