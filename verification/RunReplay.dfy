/** From the bytes of a run's decision log back to its graph and posture (src/rif_runtime/replay.py). */
module RunReplay {
  import opened Wrappers
  import opened PythonValues
  import opened Utf8
  import opened Schemas
  import opened LogFile
  import opened AuditChain
  import opened ChainedStore
  import opened GraphMemory
  import opened DecisionLog
  import opened Replay
  import opened Runtime
  import opened RuntimeRuns

  /** The decisions a run adds to the log it found. */
  ghost function Added(c: Config, disk: Disk, events: seq<Event>): seq<PolicyDecision> {
    RunOnlyAdds(c, Boot(c, disk), events);
    Run(c, Boot(c, disk), events).disk.decisions[|disk.decisions|..]
  }

  lemma RowsHoldJoined(a: seq<Row>, ds: seq<PolicyDecision>, b: seq<Row>, es: seq<PolicyDecision>)
    requires RowsHold(a, ds) && RowsHold(b, es)
    ensures RowsHold(a + b, ds + es)
  {
  }

  /** A file of rows that hold a log replays as that log. */
  lemma HeldLogReplays(rows: seq<Row>, decisions: seq<PolicyDecision>, clock: nat -> int)
    requires RowsHold(rows, decisions)
    ensures Parsed(rows, clock) == Some(Replayed(decisions, clock))
    ensures RecoverPosture(rows) == RecoveredPosture(decisions)
  {
    HeldRowsParse(rows, decisions, clock);
    DenialsReadBack([], rows, decisions);
    assert [] + rows == rows;
  }

  /** Recording behind a log: what the file replays as, if it can be read. */
  lemma RecordedFileReplays(p: Platform, iso: int -> string, lines: seq<Line<Row>>, stamps: nat -> Stamp,
                            before: seq<PolicyDecision>, ds: seq<PolicyDecision>, clock: nat -> int)
    requires p.Lawful() && WritesRaw(p.codec) && PlainDigests(p.h) && PlainStamps(iso, stamps)
    requires SoundLog(p.codec, lines) && ReadableLog(p.codec, lines) && Plain(TailOf(p.h, RowsOf(lines)))
    requires RowsHold(RowsOf(lines), before)
    ensures var r := ReadBytes(p.codec, BytesOf(p.codec, LogAfter(p, iso, lines, ds, stamps)));
            && (r.Ok? <==> forall i :: 0 <= i < |ds| ==> CleanDecision(ds[i]))
            && (r.Ok? ==> Parsed(r.value, clock) == Some(Replayed(before + ds, clock)))
            && (r.Ok? ==> RecoverPosture(r.value) == RecoveredPosture(before + ds))
  {
    FileReplaysDecisions(p, iso, lines, ds, stamps);
    var rows := RowsAfter(p, iso, lines, ds, stamps);
    RowsHoldJoined(RowsOf(lines), before, rows, ds);
    HeldLogReplays(RowsOf(lines) + rows, before + ds, clock);
  }

  lemma LogIsFoundAndAdded(c: Config, disk: Disk, events: seq<Event>)
    ensures Run(c, Boot(c, disk), events).disk.decisions == disk.decisions + Added(c, disk, events)
  {
    RunOnlyAdds(c, Boot(c, disk), events);
  }

  /**
   A process runs on a data directory whose log file holds ``disk.decisions``, and records its own
   decisions there. The file can be read back iff none of those holds U+0085, U+2028 or U+2029. Its rows
   are then replayed without error, as the graph of the log the last process found joined with its live
   graph, timestamps aside - on a new directory and without restarts, as the live graph - and as the
   posture the runtime itself derives from its log.
   */
  lemma FileRebuildsGraph(p: Platform, iso: int -> string, lines: seq<Line<Row>>, stamps: nat -> Stamp,
                          c: Config, disk: Disk, events: seq<Event>, clock: nat -> int)
    requires p.Lawful() && WritesRaw(p.codec) && PlainDigests(p.h) && PlainStamps(iso, stamps)
    requires SoundLog(p.codec, lines) && ReadableLog(p.codec, lines) && Plain(TailOf(p.h, RowsOf(lines)))
    requires RowsHold(RowsOf(lines), disk.decisions)
    ensures var s, ds := Run(c, Boot(c, disk), events), Added(c, disk, events);
            var r := ReadBytes(p.codec, BytesOf(p.codec, LogAfter(p, iso, lines, ds, stamps)));
            && (r.Ok? <==> forall i :: 0 <= i < |ds| ==> CleanDecision(ds[i]))
            && (r.Ok? ==>
                  && Parsed(r.value, clock).Some?
                  && var replayed := Untimed(GraphOf(Parsed(r.value, clock).value));
                     && replayed == Untimed(Joined(GraphOf(s.trace.bootLog), s.live.graph))
                     && (disk.decisions == [] && NoRestart(events) ==> replayed == Untimed(s.live.graph))
                     && RecoverPosture(r.value) == RecoveredPosture(s.disk.decisions))
  {
    LogIsFoundAndAdded(c, disk, events);
    RecordedFileReplays(p, iso, lines, stamps, disk.decisions, Added(c, disk, events), clock);
    ReplayRebuildsGraph(c, disk, events, clock);
  }
}
