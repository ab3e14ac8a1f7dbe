/**
 The posture ladder, the denial window and the step that joins them
 (src/rif_runtime/governance/posture.py, telemetry.py, reflexive.py).
 */
module Governance {
  import opened Wrappers
  import opened Schemas

  const POSTURE_LADDER: seq<Posture> := [Normal, Elevated, Restricted, Locked]

  function PostureSeverity(p: Posture): (rung: nat)
    ensures rung < |POSTURE_LADDER| && POSTURE_LADDER[rung] == p
  {
    match p case Normal => 0 case Elevated => 1 case Restricted => 2 case Locked => 3
  }

  function EscalatePosture(current: Posture): (p: Posture)
    ensures PostureSeverity(p) == if current == Locked then 3 else PostureSeverity(current) + 1
  {
    var index := PostureSeverity(current);
    POSTURE_LADDER[if index + 1 < |POSTURE_LADDER| then index + 1 else |POSTURE_LADDER| - 1]
  }

  function AtLeastPosture(current: Posture, floor: Posture): (p: Posture)
    ensures p == current || p == floor
    ensures PostureSeverity(p) >= PostureSeverity(current) && PostureSeverity(p) >= PostureSeverity(floor)
  {
    if PostureSeverity(floor) > PostureSeverity(current) then floor else current
  }

  function PostureForDenials(denials: nat): Posture {
    if denials >= 20 then Locked
    else if denials >= 10 then Restricted
    else if denials >= 3 then Elevated
    else Normal
  }

  /** The least number of denials for each rung. */
  lemma LeastDenials(denials: nat)
    ensures PostureSeverity(PostureForDenials(denials)) >= 1 <==> denials >= 3
    ensures PostureSeverity(PostureForDenials(denials)) >= 2 <==> denials >= 10
    ensures PostureSeverity(PostureForDenials(denials)) >= 3 <==> denials >= 20
  {
  }

  function NextPosture(current: Posture, denials: nat): Posture {
    var candidate := PostureForDenials(denials);
    if candidate == Normal then current else AtLeastPosture(current, candidate)
  }

  // ---- the denial window ---------------------------------------------------------------------

  const MINUTE := 60_000_000

  function LastOnes<T>(s: seq<T>, n: nat): seq<T> {
    if |s| > n then s[|s| - n..] else s
  }

  predicate IsDenial(d: PolicyDecision) {
    d.decision == Deny
  }

  function Since(cutoff: int): PolicyDecision -> bool {
    (d: PolicyDecision) => d.timestamp >= cutoff
  }

  function Denials(events: seq<PolicyDecision>): nat {
    Count(events, IsDenial)
  }

  /** The denials within so many minutes before ``now``. */
  function WindowDenials(events: seq<PolicyDecision>, minutes: nat, now: int): nat {
    Denials(Filter(events, Since(now - minutes * MINUTE)))
  }

  predicate DeniedSince(d: PolicyDecision, cutoff: int) {
    d.decision == Deny && d.timestamp >= cutoff
  }

  /** That is how many events, by position, are denials no older than the cutoff. */
  lemma WindowCountsIndices(events: seq<PolicyDecision>, minutes: nat, now: int)
    ensures WindowDenials(events, minutes, now) ==
            |set i | 0 <= i < |events| && DeniedSince(events[i], now - minutes * MINUTE)|
    ensures WindowDenials(events, minutes, now) <= Denials(events)
  {
    var cutoff := now - minutes * MINUTE;
    var both := (d: PolicyDecision) => DeniedSince(d, cutoff);
    FilterAfterFilter(events, Since(cutoff), IsDenial, both);
    CountIsIndices(events, both);
    assert IndicesOf(events, both) == set i | 0 <= i < |events| && DeniedSince(events[i], cutoff);
    FilterIsShorter(events, both, IsDenial);
  }

  /** The window the posture follows: the denials of the last 3600 seconds. */
  lemma WindowIsAnHour(events: seq<PolicyDecision>, now: int)
    ensures WindowDenials(events, 60, now) ==
            |set i | 0 <= i < |events| && DeniedSince(events[i], now - 3600 * 1_000_000)|
  {
    WindowCountsIndices(events, 60, now);
  }

  class TelemetryStore {
    const maxEvents: nat
    var events: seq<PolicyDecision>

    constructor (maxEvents: nat)
      ensures this.maxEvents == maxEvents && events == []
    {
      this.maxEvents := maxEvents;
      events := [];
    }

    method Record(decision: PolicyDecision)
      modifies this
      ensures events == LastOnes(old(events) + [decision], maxEvents)
    {
      events := events + [decision];
      ghost var all := events;
      while |events| > maxEvents
        invariant |events| <= |all| && events == all[|all| - |events|..]
        invariant |all| <= maxEvents ==> events == all
        invariant |all| > maxEvents ==> |events| >= maxEvents
      {
        events := events[1..];
      }
    }

    method DenialCount(minutes: nat, now: int) returns (n: nat)
      ensures n == WindowDenials(events, minutes, now)
      ensures n == |set i | 0 <= i < |events| && DeniedSince(events[i], now - minutes * MINUTE)|
    {
      n := Denials(Filter(events, Since(now - minutes * MINUTE)));
      WindowCountsIndices(events, minutes, now);
    }
  }

  class ReflexiveLoop {
    const telemetry: TelemetryStore

    constructor ()
      ensures fresh(telemetry) && telemetry.events == [] && telemetry.maxEvents == 1000
    {
      telemetry := new TelemetryStore(1000);
    }

    method Observe(decision: PolicyDecision, currentPosture: Posture, now: int) returns (p: Posture)
      modifies telemetry
      ensures telemetry.events == LastOnes(old(telemetry.events) + [decision], telemetry.maxEvents)
      ensures p == NextPosture(currentPosture, WindowDenials(telemetry.events, 60, now))
    {
      telemetry.Record(decision);
      var denials := telemetry.DenialCount(60, now);
      p := NextPosture(currentPosture, denials);
    }
  }

  // ---- posture over a run of observations ----------------------------------------------------

  /** One recorded decision and the time at which the window was counted. */
  datatype Observation = Observation(decision: PolicyDecision, now: int)

  const MAX_EVENTS: nat := 1000

  function DecisionsOf(run: seq<Observation>): seq<PolicyDecision> {
    seq(|run|, i requires 0 <= i < |run| => run[i].decision)
  }

  function EventsAfter(run: seq<Observation>): seq<PolicyDecision> {
    if run == [] then []
    else LastOnes(EventsAfter(run[..|run| - 1]) + [run[|run| - 1].decision], MAX_EVENTS)
  }

  function PostureAfter(start: Posture, run: seq<Observation>): Posture {
    if run == [] then start
    else NextPosture(PostureAfter(start, run[..|run| - 1]), WindowDenials(EventsAfter(run), 60, run[|run| - 1].now))
  }

  /** The count the window must show after the run: the last hour of the last thousand decisions. */
  function CountAfter(run: seq<Observation>): nat
    requires run != []
  {
    WindowDenials(LastOnes(DecisionsOf(run), MAX_EVENTS), 60, run[|run| - 1].now)
  }

  function Max(m: nat, n: nat): nat { if m > n then m else n }

  /** The largest such count at any point of the run. */
  function Peak(run: seq<Observation>): nat {
    if run == [] then 0 else Max(CountAfter(run), Peak(run[..|run| - 1]))
  }

  lemma {:induction false} PeakIsReached(run: seq<Observation>) returns (i: nat)
    ensures Peak(run) > 0 ==> 0 < i <= |run| && CountAfter(run[..i]) == Peak(run)
  {
    i := |run|;
    assert run[..i] == run;
    if run != [] && CountAfter(run) < Peak(run) {
      i := PeakIsReached(run[..|run| - 1]);
      assert run[..|run| - 1][..i] == run[..i];
    }
  }

  lemma {:induction false} PeakIsLargest(run: seq<Observation>, i: nat)
    requires 0 < i <= |run|
    ensures CountAfter(run[..i]) <= Peak(run)
  {
    if i == |run| {
      assert run[..i] == run;
    } else {
      PeakIsLargest(run[..|run| - 1], i);
      assert run[..|run| - 1][..i] == run[..i];
    }
  }

  lemma {:induction false} WindowIsLastThousand(run: seq<Observation>)
    ensures EventsAfter(run) == LastOnes(DecisionsOf(run), MAX_EVENTS)
  {
    if run != [] {
      var n := |run| - 1;
      WindowIsLastThousand(run[..n]);
      assert DecisionsOf(run) == DecisionsOf(run[..n]) + [run[n].decision];
    }
  }

  lemma DenialsAreMonotone(m: nat, n: nat)
    requires m <= n
    ensures PostureSeverity(PostureForDenials(m)) <= PostureSeverity(PostureForDenials(n))
  {
  }

  /**
   With no operator and no severe outcome the live posture is the start posture raised to what the
   worst window of the run calls for: it remembers the peak, not the present.
   */
  lemma {:induction false} PostureRemembersPeak(start: Posture, run: seq<Observation>)
    ensures PostureAfter(start, run) == AtLeastPosture(start, PostureForDenials(Peak(run)))
  {
    if run != [] {
      var init := run[..|run| - 1];
      PostureRemembersPeak(start, init);
      WindowIsLastThousand(run);
      RatchetTakesMax(start, Peak(init), CountAfter(run));
    }
  }

  lemma RatchetTakesMax(start: Posture, m: nat, n: nat)
    ensures NextPosture(AtLeastPosture(start, PostureForDenials(m)), n) ==
            AtLeastPosture(start, PostureForDenials(Max(n, m)))
  {
  }

  lemma CountIsBoundedByTotal(run: seq<Observation>, i: nat)
    requires 0 < i <= |run|
    ensures CountAfter(run[..i]) <= Denials(DecisionsOf(run))
  {
    var some, all := DecisionsOf(run[..i]), DecisionsOf(run);
    var last := LastOnes(some, MAX_EVENTS);
    assert some == some[..|some| - |last|] + last;
    CountConcat(some[..|some| - |last|], last, IsDenial);
    assert all == some + all[i..];
    CountConcat(some, all[i..], IsDenial);
    WindowCountsIndices(last, 60, run[..i][i - 1].now);
  }

  /** Live posture never exceeds what replaying the full decision log would call for. */
  lemma LivePostureIsWithinReplay(start: Posture, run: seq<Observation>)
    ensures PostureSeverity(PostureAfter(start, run)) <=
            PostureSeverity(AtLeastPosture(start, PostureForDenials(Denials(DecisionsOf(run)))))
  {
    PostureRemembersPeak(start, run);
    var i := PeakIsReached(run);
    if Peak(run) > 0 { CountIsBoundedByTotal(run, i); }
    DenialsAreMonotone(Peak(run), Denials(DecisionsOf(run)));
  }
}
