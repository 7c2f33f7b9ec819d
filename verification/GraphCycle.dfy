/** The three-colour depth-first cycle test of the task controller. */
module GraphCycle {
  import opened AgentGraph
  import opened Lists

  datatype Color = White | Gray | Black

  /** `f` lists agents so that every edge into the graph's keys leads to an earlier entry. */
  ghost predicate FinishOrder(g: Graph, f: seq<Agent>) {
    && Distinct(f)
    && (forall x :: x in f ==> x in g)
    && forall i, v :: 0 <= i < |f| && Edge(g, f[i], v) && v in g ==> v in f[..i]
  }

  /** Following a path goes strictly down in a finish order. */
  lemma {:induction false} PathDescends(g: Graph, f: seq<Agent>, p: seq<Agent>, i: nat) returns (j: nat)
    requires FinishOrder(g, f) && Path(g, p) && p[|p| - 1] in g
    requires i < |f| && f[i] == p[0]
    ensures j < |f| && f[j] == p[|p| - 1] && j + |p| - 1 <= i
    decreases |p|
  {
    if |p| == 1 {
      j := i;
    } else {
      assert Edge(g, p[0], p[0 + 1]);
      assert p[1] in g by {
        if |p| > 2 {
          assert Edge(g, p[1], p[1 + 1]);
        }
      }
      var k :| 0 <= k < i && f[..i][k] == p[1];
      PathSuffix(g, p, 1);
      j := PathDescends(g, f, p[1..], k);
    }
  }

  lemma FinishedAcyclic(g: Graph, f: seq<Agent>)
    requires FinishOrder(g, f) && Elements(f) == g.Keys
    ensures !Cyclic(g)
  {
    forall p | IsCycle(g, p)
      ensures false
    {
      assert Edge(g, p[0], p[0 + 1]);
      assert p[0] in Elements(f);
      var i :| 0 <= i < |f| && f[i] == p[0];
      var j := PathDescends(g, f, p, i);
    }
  }

  lemma FinishAppend(g: Graph, f: seq<Agent>, node: Agent)
    requires FinishOrder(g, f) && node in g && node !in f
    requires forall v :: Edge(g, node, v) && v in g ==> v in f
    ensures FinishOrder(g, f + [node])
  {
    var f' := f + [node];
    forall i, v | 0 <= i < |f'| && Edge(g, f'[i], v) && v in g
      ensures v in f'[..i]
    {
      if i < |f| {
        assert v in f[..i];
        assert f'[..i] == f[..i];
      } else {
        assert f'[..i] == f;
      }
    }
  }

  /** The search state: grey is the recursion stack, a path; black is finished. */
  ghost predicate Consistent(g: Graph, color: map<Agent, Color>, stack: seq<Agent>, finished: seq<Agent>) {
    && color.Keys == g.Keys
    && (forall n :: n in color ==> (color[n] == Gray <==> n in stack))
    && (forall n :: n in color ==> (color[n] == Black <==> n in finished))
    && (forall n :: n in stack ==> n in g)
    && (stack != [] ==> Path(g, stack))
    && FinishOrder(g, finished)
  }

  lemma Push(g: Graph, color: map<Agent, Color>, stack: seq<Agent>, finished: seq<Agent>, node: Agent)
    requires Consistent(g, color, stack, finished)
    requires node in color && color[node] == White
    requires stack == [] || Edge(g, stack[|stack| - 1], node)
    ensures Consistent(g, color[node := Gray], stack + [node], finished)
  {
  }

  lemma Pop(g: Graph, color: map<Agent, Color>, stack: seq<Agent>, finished: seq<Agent>, node: Agent)
    requires Consistent(g, color, stack + [node], finished) && node !in stack
    requires forall v :: Edge(g, node, v) && v in g ==> v in finished
    ensures Consistent(g, color[node := Black], stack, finished + [node])
    ensures Whites(color[node := Black]) == Whites(color)
    ensures node in finished + [node] && Elements(finished) <= Elements(finished + [node])
  {
    var full := stack + [node];
    assert node in full;
    if stack != [] {
      PathPrefix(g, full, |stack|);
      assert full[..|stack|] == stack;
    }
    FinishAppend(g, finished, node);
    forall n | n in color
      ensures color[node := Black][n] == Gray <==> n in stack
    {
      assert n in full <==> n in stack || n == node;
    }
  }

  lemma BackEdge(g: Graph, color: map<Agent, Color>, stack: seq<Agent>, finished: seq<Agent>, node: Agent, next: Agent)
    requires Consistent(g, color, stack + [node], finished)
    requires next in color && color[next] == Gray && Edge(g, node, next)
    ensures Cyclic(g)
  {
    var full := stack + [node];
    var k :| 0 <= k < |full| && full[k] == next;
    PathSuffix(g, full, k);
    PathAppend(g, full[k..], next);
    assert IsCycle(g, full[k..] + [next]);
  }

  function Whites(color: map<Agent, Color>): set<Agent> {
    set n | n in color && color[n] == White
  }

  /** The closure state of the search: the colour map, with the recursion stack and the
      order of blackening as ghosts. */
  class CycleFinder {
    const graph: Graph
    var color: map<Agent, Color>
    ghost var stack: seq<Agent>
    ghost var finished: seq<Agent>

    ghost predicate Valid()
      reads this
    {
      Consistent(graph, color, stack, finished)
    }

    constructor (g: Graph)
      ensures Valid() && graph == g && stack == [] && finished == []
    {
      graph := g;
      color := map n | n in g :: White;
      stack, finished := [], [];
    }

    /** Colours everything reachable from a white node, or finds a cycle. */
    method Visit(node: Agent) returns (found: bool)
      requires Valid() && node in Whites(color)
      requires stack == [] || Edge(graph, stack[|stack| - 1], node)
      modifies this
      ensures found ==> Cyclic(graph)
      ensures !found ==> Valid() && stack == old(stack)
      ensures !found ==> Whites(color) <= old(Whites(color)) - {node}
      ensures !found ==> node in finished && Elements(old(finished)) <= Elements(finished)
      decreases Whites(color), 0
    {
      Enter(node);
      found := VisitSuccessors(node, old(stack));
      if !found {
        Leave(node, old(stack));
      }
    }

    /** Every edge out of the grey node on top of the stack. */
    method VisitSuccessors(node: Agent, ghost below: seq<Agent>) returns (found: bool)
      requires Valid() && stack == below + [node] && node in graph
      modifies this
      ensures found ==> Cyclic(graph)
      ensures !found ==> Valid() && stack == old(stack) && Whites(color) <= old(Whites(color))
      ensures !found ==> Elements(old(finished)) <= Elements(finished)
      ensures !found ==> forall v :: Edge(graph, node, v) && v in graph ==> v in Elements(finished)
      decreases Whites(color), 2
    {
      var out := graph[node].outgoing;
      var i := 0;
      while i < |out|
        invariant 0 <= i <= |out|
        invariant Valid() && stack == old(stack) && Whites(color) <= old(Whites(color))
        invariant Elements(old(finished)) <= Elements(finished)
        invariant forall k :: 0 <= k < i && out[k] in graph ==> out[k] in Elements(finished)
      {
        found := VisitSuccessor(node, out[i], below);
        if found {
          return;
        }
        i := i + 1;
      }
      return false;
    }

    method Enter(node: Agent)
      requires Valid() && node in Whites(color)
      requires stack == [] || Edge(graph, stack[|stack| - 1], node)
      modifies this
      ensures Valid() && stack == old(stack) + [node] && node !in old(stack)
      ensures finished == old(finished) && Whites(color) == old(Whites(color)) - {node}
    {
      Push(graph, color, stack, finished, node);
      color := color[node := Gray];
      stack := stack + [node];
    }

    method Leave(node: Agent, ghost below: seq<Agent>)
      requires Valid() && stack == below + [node] && node !in below
      requires forall v :: Edge(graph, node, v) && v in graph ==> v in Elements(finished)
      modifies this
      ensures Valid() && stack == below && Whites(color) == old(Whites(color))
      ensures node in finished && Elements(old(finished)) <= Elements(finished)
    {
      Pop(graph, color, below, finished, node);
      color, stack, finished := color[node := Black], below, finished + [node];
    }

    /** One edge out of the grey node on top of the stack. */
    method VisitSuccessor(node: Agent, next: Agent, ghost below: seq<Agent>) returns (found: bool)
      requires Valid() && stack == below + [node] && Edge(graph, node, next)
      modifies this
      ensures found ==> Cyclic(graph)
      ensures !found ==> Valid() && stack == old(stack) && Whites(color) <= old(Whites(color))
      ensures !found ==> Elements(old(finished)) <= Elements(finished) && (next in graph ==> next in Elements(finished))
      decreases Whites(color), 1
    {
      if next in color {
        if color[next] == Gray {
          BackEdge(graph, color, below, finished, node, next);
          return true;
        }
        if color[next] == White {
          found := Visit(next);
          return;
        }
      }
      return false;
    }
  }

  /** True exactly on cyclic graphs, whatever order the map is walked in. */
  method HasGraphCycle(g: Graph) returns (found: bool)
    ensures found <==> Cyclic(g)
  {
    var finder := new CycleFinder(g);
    var rest := g.Keys;
    while rest != {}
      invariant finder.Valid() && finder.graph == g && finder.stack == []
      invariant rest <= g.Keys && g.Keys - rest <= Elements(finder.finished)
      decreases rest
    {
      var node :| node in rest;
      rest := rest - {node};
      if finder.color[node] == White {
        var cyclic := finder.Visit(node);
        if cyclic {
          return true;
        }
      }
    }
    FinishedAcyclic(g, finder.finished);
    return false;
  }
}
