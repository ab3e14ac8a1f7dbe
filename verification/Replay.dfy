/** Rebuilding graph and posture from the rows of the decision log (src/rif_runtime/replay.py). */
module Replay {
  import opened Wrappers
  import opened PythonValues
  import opened Schemas
  import opened Governance
  import opened GraphMemory
  import opened DecisionLog

  datatype RecoveredState = RecoveredState(
    historicalDecisions: nat,
    historicalDenials: nat,
    graphNodes: nat,
    graphEdges: nat,
    lastPosture: Posture)

  /** The decisions in the rows, the ``i``-th rebuilt at time ``clock(i)``; none if a row lacks a field. */
  function Parsed(rows: seq<Row>, clock: nat -> int): Option<seq<PolicyDecision>> {
    if rows == [] then Some([]) else
    var n := |rows| - 1;
    match (Parsed(rows[..n], clock), FromRow(rows[n], clock(n)))
    case (Some(ds), Some(d)) => Some(ds + [d])
    case _ => None
  }

  lemma {:induction false} PrefixParses(rows: seq<Row>, clock: nat -> int, i: nat)
    requires i <= |rows| && Parsed(rows, clock).Some?
    ensures Parsed(rows[..i], clock).Some?
  {
    if i == |rows| {
      assert rows[..i] == rows;
    } else {
      PrefixParses(rows[..|rows| - 1], clock, i);
      assert rows[..|rows| - 1][..i] == rows[..i];
    }
  }

  /** ``None`` stands for the exception the first unusable row causes. */
  method ReplayGraph(rows: seq<Row>, clock: nat -> int) returns (g: Option<GovernanceGraph>)
    ensures g.Some? <==> Parsed(rows, clock).Some?
    ensures g.Some? ==> fresh(g.value) && g.value.Value() == GraphOf(Parsed(rows, clock).value)
  {
    var graph := new GovernanceGraph();
    for i := 0 to |rows|
      invariant fresh(graph)
      invariant Parsed(rows[..i], clock).Some? && graph.Value() == GraphOf(Parsed(rows[..i], clock).value)
    {
      assert rows[..i + 1][..i] == rows[..i];
      var d := FromRow(rows[i], clock(i));
      if d.None? {
        if Parsed(rows, clock).Some? { PrefixParses(rows, clock, i + 1); }
        return None;
      }
      graph.RecordDecision(d.value);
      ghost var ds := Parsed(rows[..i], clock).value;
      assert (ds + [d.value])[..|ds|] == ds;
    }
    assert rows[..|rows|] == rows;
    return Some(graph);
  }

  /** ``recover_posture``: the posture the denials in the log call for. */
  function RecoverPosture(rows: seq<Row>): Posture {
    PostureForDenials(DeniedRows(rows))
  }

  ghost function NamesIn(ds: seq<PolicyDecision>): set<string> {
    (set d | d in ds :: d.actor) + (set d | d in ds :: d.target)
  }

  /** ``recover``: everything it reports is a figure of the one snapshot it is given. */
  method Recover(rows: seq<Row>, clock: nat -> int) returns (r: Option<RecoveredState>)
    ensures r.Some? <==> Parsed(rows, clock).Some?
    ensures r.Some? ==>
      && r.value.historicalDecisions == r.value.graphEdges == |rows|
      && r.value.historicalDenials == Denials(Parsed(rows, clock).value)
      && r.value.graphNodes == |NamesIn(Parsed(rows, clock).value)|
      && r.value.lastPosture == RecoveredPosture(Parsed(rows, clock).value)
  {
    var graph := ReplayGraph(rows, clock);
    if graph.None? { return None; }
    var denials := DeniedRows(rows);
    var nodes, edges := graph.value.Summary();
    ParsedDenials(rows, clock);
    NodesAreNames(Parsed(rows, clock).value);
    return Some(RecoveredState(|rows|, denials, nodes, edges, PostureForDenials(denials)));
  }

  lemma MoreNames(ds: seq<PolicyDecision>, d: PolicyDecision)
    ensures NamesIn(ds + [d]) == NamesIn(ds) + {d.actor, d.target}
  {
  }

  lemma {:induction false} NodesAreNames(ds: seq<PolicyDecision>)
    ensures GraphOf(ds).nodes.Keys == NamesIn(ds) && |GraphOf(ds).edges| == |ds|
  {
    if ds != [] {
      var init, d := ds[..|ds| - 1], ds[|ds| - 1];
      NodesAreNames(init);
      assert ds == init + [d];
      MoreNames(init, d);
    }
  }

  lemma {:induction false} ParsedAt(rows: seq<Row>, clock: nat -> int, i: nat)
    requires Parsed(rows, clock).Some? && i < |rows|
    ensures var ds := Parsed(rows, clock).value;
            |ds| == |rows| && FromRow(rows[i], clock(i)) == Some(ds[i])
  {
    var n := |rows| - 1;
    if n > 0 { ParsedAt(rows[..n], clock, if i < n then i else 0); }
  }

  lemma ParsedDenials(rows: seq<Row>, clock: nat -> int)
    requires Parsed(rows, clock).Some?
    ensures |Parsed(rows, clock).value| == |rows| && DeniedRows(rows) == Denials(Parsed(rows, clock).value)
  {
    var ds := Parsed(rows, clock).value;
    if rows != [] { ParsedAt(rows, clock, 0); }
    forall i | 0 <= i < |rows| ensures IsDenied(rows[i]) <==> IsDenial(ds[i]) {
      ParsedAt(rows, clock, i);
      RowDenies(rows[i], clock(i));
    }
    CountAlike(rows, IsDenied, ds, IsDenial);
  }

  lemma RowDenies(row: Row, now: int)
    requires FromRow(row, now).Some?
    ensures IsDenied(row) <==> FromRow(row, now).value.decision == Deny
  {
  }

  /** Rows that hold decisions are replayed as those decisions, stamped with the time of replay. */
  lemma {:induction false} HeldRowsParse(rows: seq<Row>, ds: seq<PolicyDecision>, clock: nat -> int)
    requires RowsHold(rows, ds)
    ensures Parsed(rows, clock) == Some(Replayed(ds, clock))
  {
    if rows != [] {
      var n := |rows| - 1;
      HeldRowsParse(rows[..n], ds[..n], clock);
      assert Holds(rows[n], ds[n]);
      assert Replayed(ds, clock) == Replayed(ds[..n], clock) + [ds[n].(timestamp := clock(n))];
    }
  }
}
