/** The governance graph (src/rif_runtime/graph/memory.py) and what replay can rebuild of it. */
module GraphMemory {
  import opened Schemas
  import opened Governance

  datatype NodeKind = Actor | Target

  datatype Edge = Edge(source: string, target: string, decision: Decision, rule: string, environment: string,
                       posture: Posture, timestamp: int)

  /** A directed multigraph; adding a node again overwrites its kind. */
  datatype Graph = Graph(nodes: map<string, NodeKind>, edges: seq<Edge>)

  const EMPTY_GRAPH := Graph(map[], [])

  function EdgeOf(d: PolicyDecision): Edge {
    Edge(d.actor, d.target, d.decision, d.matchedRule, d.environment, d.posture, d.timestamp)
  }

  function WithDecision(g: Graph, d: PolicyDecision): Graph {
    Graph(g.nodes[d.actor := Actor][d.target := Target], g.edges + [EdgeOf(d)])
  }

  function GraphOf(decisions: seq<PolicyDecision>): Graph {
    if decisions == [] then EMPTY_GRAPH
    else WithDecision(GraphOf(decisions[..|decisions| - 1]), decisions[|decisions| - 1])
  }

  class GovernanceGraph {
    var nodes: map<string, NodeKind>
    var edges: seq<Edge>

    function Value(): Graph
      reads this
    {
      Graph(nodes, edges)
    }

    constructor ()
      ensures Value() == EMPTY_GRAPH
    {
      nodes, edges := map[], [];
    }

    method RecordDecision(d: PolicyDecision)
      modifies this
      ensures Value() == WithDecision(old(Value()), d)
    {
      nodes := nodes[d.actor := Actor];
      nodes := nodes[d.target := Target];
      edges := edges + [EdgeOf(d)];
    }

    method Summary() returns (nodeCount: nat, edgeCount: nat)
      ensures nodeCount == |nodes| && edgeCount == |edges|
    {
      nodeCount, edgeCount := |nodes|, |edges|;
    }
  }

  // ---- replay --------------------------------------------------------------------------------

  /** The decisions as replay rebuilds them: every field but the time, which is the time of replay. */
  function Replayed(decisions: seq<PolicyDecision>, clock: nat -> int): seq<PolicyDecision> {
    seq(|decisions|, i requires 0 <= i < |decisions| => decisions[i].(timestamp := clock(i)))
  }

  /** The posture the denials among the decisions of a log call for. */
  function RecoveredPosture(decisions: seq<PolicyDecision>): Posture {
    PostureForDenials(Denials(decisions))
  }

  function Untimed(g: Graph): Graph {
    g.(edges := seq(|g.edges|, i requires 0 <= i < |g.edges| => g.edges[i].(timestamp := 0)))
  }

  /** One graph recorded after the other. */
  function Joined(g: Graph, later: Graph): Graph {
    Graph(g.nodes + later.nodes, g.edges + later.edges)
  }

  ghost predicate Names(d: PolicyDecision, node: string) {
    d.actor == node || d.target == node
  }

  /** One edge per decision, in order, and no node but the actors and targets. */
  lemma {:induction false} GraphHoldsDecisions(decisions: seq<PolicyDecision>)
    ensures |GraphOf(decisions).edges| == |decisions|
    ensures forall i :: 0 <= i < |decisions| ==> GraphOf(decisions).edges[i] == EdgeOf(decisions[i])
    ensures forall node :: node in GraphOf(decisions).nodes <==>
                           exists i :: 0 <= i < |decisions| && Names(decisions[i], node)
  {
    if decisions != [] {
      var n := |decisions| - 1;
      var init := decisions[..n];
      GraphHoldsDecisions(init);
      forall node ensures node in GraphOf(decisions).nodes <==>
                          exists i :: 0 <= i < |decisions| && Names(decisions[i], node)
      {
        if i :| 0 <= i < n && Names(init[i], node) { assert Names(decisions[i], node); }
        if i :| 0 <= i < |decisions| && Names(decisions[i], node) && i < n { assert Names(init[i], node); }
        assert Names(decisions[n], node) || node in GraphOf(init).nodes || node !in GraphOf(decisions).nodes;
      }
    }
  }

  /** Edges run from actors to targets and carry what was decided, where, when and by which rule. */
  lemma EdgesSay(decisions: seq<PolicyDecision>, i: nat)
    requires i < |decisions|
    ensures |GraphOf(decisions).edges| == |decisions|
    ensures var e, d := GraphOf(decisions).edges[i], decisions[i];
            && e.source == d.actor && e.target == d.target && e.decision == d.decision && e.rule == d.matchedRule
            && e.environment == d.environment && e.posture == d.posture && e.timestamp == d.timestamp
  {
    GraphHoldsDecisions(decisions);
  }

  /** A node is what the last decision that names it makes it: a target if it was that one's target. */
  lemma {:induction false} KindIsOfLastNaming(decisions: seq<PolicyDecision>, node: string) returns (i: nat)
    requires node in GraphOf(decisions).nodes
    ensures i < |decisions| && Names(decisions[i], node)
    ensures forall k :: i < k < |decisions| ==> !Names(decisions[k], node)
    ensures GraphOf(decisions).nodes[node] == if decisions[i].target == node then Target else Actor
  {
    var n := |decisions| - 1;
    i := n;
    if !Names(decisions[n], node) { i := KindIsOfLastNaming(decisions[..n], node); }
  }

  /** Recording in two stretches and joining is recording in one. */
  lemma {:induction false} GraphOfParts(a: seq<PolicyDecision>, b: seq<PolicyDecision>)
    ensures GraphOf(a + b) == Joined(GraphOf(a), GraphOf(b))
  {
    if b == [] {
      assert a + b == a;
      assert GraphOf(a).nodes + map[] == GraphOf(a).nodes;
    } else {
      var n := |b| - 1;
      assert (a + b)[..|a + b| - 1] == a + b[..n];
      GraphOfParts(a, b[..n]);
      OneMoreJoined(GraphOf(a), GraphOf(b[..n]), b[n]);
    }
  }

  lemma OneMoreJoined(g: Graph, later: Graph, d: PolicyDecision)
    ensures WithDecision(Joined(g, later), d) == Joined(g, WithDecision(later, d))
  {
    var m, k := g.nodes, later.nodes;
    assert (m + k)[d.actor := Actor][d.target := Target] == m + k[d.actor := Actor][d.target := Target];
  }

  /** Timestamps aside, replaying rows gives the graph that was recorded when they were written. */
  lemma {:induction false} ReplayIsFaithful(rows: seq<PolicyDecision>, clock: nat -> int)
    ensures Untimed(GraphOf(Replayed(rows, clock))) == Untimed(GraphOf(rows))
  {
    GraphHoldsDecisions(rows);
    GraphHoldsDecisions(Replayed(rows, clock));
    SameNodes(rows, clock);
    var live, replayed := GraphOf(rows), GraphOf(Replayed(rows, clock));
    forall i | 0 <= i < |rows| ensures replayed.edges[i].(timestamp := 0) == live.edges[i].(timestamp := 0) {
      assert Replayed(rows, clock)[i] == rows[i].(timestamp := clock(i));
      assert live.edges[i] == EdgeOf(rows[i]);
    }
    assert Untimed(replayed).edges == Untimed(live).edges;
  }

  lemma {:induction false} SameNodes(rows: seq<PolicyDecision>, clock: nat -> int)
    ensures GraphOf(Replayed(rows, clock)).nodes == GraphOf(rows).nodes
  {
    if rows != [] {
      var n := |rows| - 1;
      SameNodes(rows[..n], clock);
      assert Replayed(rows, clock)[..n] == Replayed(rows[..n], clock);
      assert Replayed(rows, clock)[n] == rows[n].(timestamp := clock(n));
    }
  }
}
