/** What holds over every run of the runtime, restarts included (src/rif_runtime/runtime.py, replay.py). */
module RuntimeRuns {
  import opened Wrappers
  import opened Schemas
  import opened Governance
  import opened GraphMemory
  import opened CapabilityRegistries
  import opened Policy
  import opened PolicyStorage
  import opened PythonValues
  import opened Runtime
  import MSF = Metasploit

  // ---- posture across restarts ---------------------------------------------------------------

  /**
   The posture files always suffice to restore the live posture up to the floor: either the last
   named posture is it, or none was ever written and nothing has moved since boot.
   */
  ghost predicate PostureIsPersisted(c: Config, s: State) {
    && s.trace.bootLog <= s.disk.decisions
    && match LastPosture(s.disk.history)
       case Some(p) => AtLeastPosture(s.live.posture, c.floor) == AtLeastPosture(p, c.floor)
       case None => s.live.posture == AtLeastPosture(RecoveredPosture(s.trace.bootLog), c.floor)
  }

  lemma MovedNamesPosture(history: seq<HistoryRow>, before: Posture, after: Posture)
    ensures LastPosture(Moved(history, before, after)) == if before == after then LastPosture(history) else Some(after)
  {
  }

  lemma ApplyKeepsPosturePersisted(c: Config, s: State, e: Effect)
    requires PostureIsPersisted(c, s)
    ensures PostureIsPersisted(c, Apply(c, s, e))
  {
    match e
    case Recorded(decision, severe, _, at) =>
      MovedNamesPosture(s.disk.history, s.live.posture, PostureWith(s, decision, severe, at));
    case Called(_, decision, at, _, _) =>
      MovedNamesPosture(s.disk.history, s.live.posture, PostureWith(s, decision, false, at));
    case PostureSet(posture) => MovedNamesPosture(s.disk.history, s.live.posture, posture);
    case _ =>
  }

  lemma {:induction false} LaterIsPersisted(c: Config, s: State, events: seq<Event>)
    requires PostureIsPersisted(c, s)
    ensures PostureIsPersisted(c, Run(c, s, events))
  {
    if events != [] {
      var init := events[..|events| - 1];
      LaterIsPersisted(c, s, init);
      ApplyKeepsPosturePersisted(c, Run(c, s, init), EffectOf(c, Run(c, s, init), events[|events| - 1]));
    }
  }

  lemma RunKeepsPosturePersisted(c: Config, disk: Disk, events: seq<Event>)
    ensures PostureIsPersisted(c, Run(c, Boot(c, disk), events))
  {
    assert PostureIsPersisted(c, Boot(c, disk));
    LaterIsPersisted(c, Boot(c, disk), events);
  }

  lemma {:induction false} MoreDecisionsNeverRelax(a: seq<PolicyDecision>, b: seq<PolicyDecision>)
    requires a <= b
    ensures PostureSeverity(RecoveredPosture(a)) <= PostureSeverity(RecoveredPosture(b))
  {
    assert b == a + b[|a|..];
    CountConcat(a, b[|a|..], IsDenial);
    DenialsAreMonotone(Denials(a), Denials(b));
  }

  /** A new process would start at least as restrictive, and exactly there once the history names a posture. */
  ghost predicate RestartIsSafe(c: Config, s: State) {
    var before, after := AtLeastPosture(s.live.posture, c.floor), Step(c, s, Restart).live.posture;
    && PostureSeverity(after) >= PostureSeverity(before)
    && (LastPosture(s.disk.history).Some? ==> after == before)
  }

  lemma RestartFromPersisted(c: Config, s: State)
    requires PostureIsPersisted(c, s)
    ensures RestartIsSafe(c, s)
  {
    if LastPosture(s.disk.history) == None { MoreDecisionsNeverRelax(s.trace.bootLog, s.disk.decisions); }
  }

  /**
   Restarting never relaxes: after any run from any data directory, with any number of restarts in
   it, a new process starts at least as restrictive as the old one was and as the floor demands, and
   exactly there once the posture history names a posture.
   */
  lemma RestartNeverRelaxes(c: Config, disk: Disk, events: seq<Event>)
    ensures RestartIsSafe(c, Run(c, Boot(c, disk), events))
  {
    RunKeepsPosturePersisted(c, disk, events);
    RestartFromPersisted(c, Run(c, Boot(c, disk), events));
  }

  // ---- the ratchet and the lock --------------------------------------------------------------

  predicate NoOperatorSet(events: seq<Event>) {
    forall i :: 0 <= i < |events| ==> !events[i].SetPosture?
  }

  predicate IsSevereRecord(e: Effect) {
    e.Recorded? && e.severe
  }

  /** How many severe outcomes the run records. */
  function SevereCount(c: Config, s: State, events: seq<Event>): nat {
    if events == [] then 0 else
    var n := |events| - 1;
    var before := Run(c, s, events[..n]);
    SevereCount(c, s, events[..n]) + (if IsSevereRecord(EffectOf(c, before, events[n])) then 1 else 0)
  }

  lemma ApplyOnlyTightens(c: Config, s: State, e: Effect)
    requires PostureIsPersisted(c, s) && !e.PostureSet?
    ensures var before, after := PostureSeverity(s.live.posture), PostureSeverity(Apply(c, s, e).live.posture);
            after >= before && (IsSevereRecord(e) && before < 3 ==> after > before)
  {
    if e.Restarted? { RestartFromPersisted(c, s); }
  }

  lemma StepOnlyTightens(c: Config, s: State, e: Event)
    requires PostureIsPersisted(c, s) && !e.SetPosture?
    ensures var before, after := PostureSeverity(s.live.posture), PostureSeverity(Step(c, s, e).live.posture);
            after >= before && (IsSevereRecord(EffectOf(c, s, e)) && before < 3 ==> after > before)
  {
    ApplyOnlyTightens(c, s, EffectOf(c, s, e));
  }

  function Min(m: nat, n: nat): nat { if m < n then m else n }

  lemma SevereStep(c: Config, s: State, e: Event, rungs: nat)
    requires PostureIsPersisted(c, s) && !e.SetPosture? && PostureSeverity(s.live.posture) >= Min(3, rungs)
    ensures PostureSeverity(Step(c, s, e).live.posture) >=
            Min(3, rungs + if IsSevereRecord(EffectOf(c, s, e)) then 1 else 0)
  {
    StepOnlyTightens(c, s, e);
  }

  lemma LastStep(c: Config, s: State, events: seq<Event>)
    requires events != [] && NoOperatorSet(events)
    ensures var init, e := events[..|events| - 1], events[|events| - 1];
            && NoOperatorSet(init) && !e.SetPosture?
            && Run(c, s, events) == Step(c, Run(c, s, init), e)
            && SevereCount(c, s, events) ==
               SevereCount(c, s, init) + if IsSevereRecord(EffectOf(c, Run(c, s, init), e)) then 1 else 0
  {
  }

  lemma {:induction false} SevereClimb(c: Config, s: State, events: seq<Event>)
    requires PostureIsPersisted(c, s) && NoOperatorSet(events)
    ensures PostureSeverity(Run(c, s, events).live.posture) >=
            Min(3, PostureSeverity(s.live.posture) + SevereCount(c, s, events))
  {
    if events != [] {
      var init, e := events[..|events| - 1], events[|events| - 1];
      LastStep(c, s, events);
      SevereClimb(c, s, init);
      LaterIsPersisted(c, s, init);
      SevereStep(c, Run(c, s, init), e, PostureSeverity(s.live.posture) + SevereCount(c, s, init));
    }
  }

  /**
   Without an operator the posture only ever tightens, across restarts too, and each severe outcome
   recorded raises it by a rung at least, up to the top.
   */
  lemma SevereOutcomesLock(c: Config, disk: Disk, prior: seq<Event>, s: State, events: seq<Event>)
    requires s == Run(c, Boot(c, disk), prior) && NoOperatorSet(events)
    ensures PostureSeverity(Run(c, s, events).live.posture) >=
            Min(3, PostureSeverity(s.live.posture) + SevereCount(c, s, events))
  {
    RunKeepsPosturePersisted(c, disk, prior);
    SevereClimb(c, s, events);
  }

  lemma {:induction false} RunsJoin(c: Config, s: State, a: seq<Event>, b: seq<Event>)
    ensures Run(c, s, a + b) == Run(c, Run(c, s, a), b)
  {
    if b == [] {
      assert a + b == a;
    } else {
      assert (a + b)[..|a + b| - 1] == a + b[..|b| - 1];
      RunsJoin(c, s, a, b[..|b| - 1]);
    }
  }

  lemma TopRung(p: Posture, rungs: nat)
    requires PostureSeverity(p) >= Min(3, rungs) && rungs >= 3
    ensures p == Locked
  {
  }

  /** As many severe outcomes as there are rungs left lock the runtime: three from the bottom, one from the top. */
  lemma EnoughSevereOutcomesLock(c: Config, disk: Disk, prior: seq<Event>, s: State, events: seq<Event>)
    requires s == Run(c, Boot(c, disk), prior)
    requires NoOperatorSet(events) && SevereCount(c, s, events) + PostureSeverity(s.live.posture) >= 3
    ensures Run(c, s, events).live.posture == Locked
  {
    SevereOutcomesLock(c, disk, prior, s, events);
    TopRung(Run(c, s, events).live.posture, PostureSeverity(s.live.posture) + SevereCount(c, s, events));
  }

  /** Once locked, always locked, until an operator sets the posture. */
  lemma LockedIsAbsorbing(c: Config, disk: Disk, prior: seq<Event>, s: State, events: seq<Event>)
    requires s == Run(c, Boot(c, disk), prior)
    requires NoOperatorSet(events) && s.live.posture == Locked
    ensures Run(c, s, events).live.posture == Locked
  {
    EnoughSevereOutcomesLock(c, disk, prior, s, events);
  }

  /** A locked runtime denies every policy request and every intent, severely none, and runs no capability. */
  lemma LockedDeniesEverything(names: Names, g: MSF.Governor, profiles: map<string, EnvironmentProfile>,
                               environment: string, floor: Posture, s: State, e: Event)
    requires s.live.posture == Locked
    ensures var c := Wired(names, g, profiles, environment, floor);
            && (e.Evaluate? && PolicyFor(c, s, e.req, e.now).Some? ==>
                  PolicyFor(c, s, e.req, e.now).value.decision == Deny
                  && PolicyFor(c, s, e.req, e.now).value.matchedRule == "posture.locked")
            && (e.EvaluateMetasploit? && MetasploitFor(c, s, e).Some? ==>
                  MetasploitFor(c, s, e).value.decision.decision == Deny && !MetasploitFor(c, s, e).value.severe)
            && (EffectOf(c, s, e).Called? ==> EffectOf(c, s, e).outcome == CallDenied)
  {
    if e.EvaluateMetasploit? {
      MSF.AllowsIff(g, e.intent, e.mode, s.live.environment, Locked, e.token, e.now, e.decisionId);
      MSF.SevereIff(g, e.intent, e.mode, s.live.environment, Locked, e.token, e.now, e.decisionId);
    }
  }

  // ---- what the runtime hands its components -------------------------------------------------

  /** The stored rules, read back, as the engine is given them. */
  ghost function StoredRules(s: State): seq<PolicyRule> {
    OrElse(Listed(s.disk.rules), [])
  }

  ghost function ContextOf(profiles: map<string, EnvironmentProfile>, s: State, now: int): Context
    requires s.live.environment in profiles
  {
    Context(s.live.environment, profiles[s.live.environment], s.live.posture, now)
  }

  /**
   An evaluation of the wired runtime is of the stored rules, in the environment and at the posture that
   are live. It decides iff the rules validate, the environment is known and matching does not raise, and
   then allows iff unlocked and the rule that wins among the stored ones allows - or, when none applies,
   the live environment's profile permits and the first stored catch-all, if any, allows.
   */
  lemma StoredRulesDecide(names: Names, g: MSF.Governor, profiles: map<string, EnvironmentProfile>,
                          environment: string, floor: Posture, s: State, req: PolicyRequest, now: int)
    ensures var d := PolicyFor(Wired(names, g, profiles, environment, floor), s, req, now);
            && (d.Some? <==>
                  && Listed(s.disk.rules).Some? && s.live.environment in profiles
                  && !Raises(names, req, ContextOf(profiles, s, now), StoredRules(s)))
            && (d.Some? ==>
                  && d.value.environment == s.live.environment && d.value.timestamp == now
                  && (d.value.decision == Allow <==>
                        && s.live.posture != Locked
                        && if exists i :: 0 <= i < |StoredRules(s)| && Applies(names, req, StoredRules(s)[i])
                           then exists w: nat :: Decides(names, req, StoredRules(s), w)
                                                 && StoredRules(s)[w].effect == Allow
                           else ProfilePermits(names, req, profiles[s.live.environment])
                                && (CatchAllRules(StoredRules(s)) != [] ==>
                                      CatchAllRules(StoredRules(s))[0].effect == Allow)))
  {
    if Listed(s.disk.rules).Some? && s.live.environment in profiles {
      AllowedIff(names, req, ContextOf(profiles, s, now), StoredRules(s));
      DecisionNamesRequest(names, req, ContextOf(profiles, s, now), StoredRules(s));
    }
  }

  /** An intent is judged in the lane and with the token it is put with, at the live posture and environment. */
  lemma GovernorDecides(names: Names, g: MSF.Governor, profiles: map<string, EnvironmentProfile>,
                        environment: string, floor: Posture, s: State, e: Event)
    requires e.EvaluateMetasploit?
    ensures var o := MetasploitFor(Wired(names, g, profiles, environment, floor), s, e);
            && (o.Some? <==> NormalizeEntries(e.intent.params).Ok?
                             && !MSF.Incomparable(g, e.intent, e.mode, s.live.posture, e.token))
            && (o.Some? ==>
                  var d := o.value.decision;
                  && d.actor == e.intent.actor && d.target == e.intent.target
                  && d.environment == s.live.environment && d.posture == s.live.posture && d.timestamp == e.now
                  && (d.decision == Allow <==>
                        && s.live.posture != Locked && !MSF.Injected(g, e.intent)
                        && (g.Classify(e.intent.capability) == MSF.ReadOnly
                            || (e.mode == MSF.LabBroker && MSF.TokenCovers(
                                  g, e.token, e.intent, g.HashOf(MSF.ClaimOf(e.intent).value), e.now)))))
  {
    MSF.AllowsIff(g, e.intent, e.mode, s.live.environment, s.live.posture, e.token, e.now, e.decisionId);
    MSF.OutcomeNamesIntent(g, e.intent, e.mode, s.live.environment, s.live.posture, e.token, e.now, e.decisionId);
  }

  lemma {:induction false} LastPostureIs(history: seq<HistoryRow>) returns (i: nat)
    ensures LastPosture(history) == None <==> forall k :: 0 <= k < |history| ==> history[k].newPosture == None
    ensures LastPosture(history).Some? ==>
      && i < |history| && history[i].newPosture == LastPosture(history)
      && forall k :: i < k < |history| ==> history[k].newPosture == None
  {
    i := 0;
    if history != [] {
      var n := |history| - 1;
      if history[n].newPosture.Some? {
        i := n;
      } else {
        i := LastPostureIs(history[..n]);
        assert forall k :: 0 <= k < n ==> history[..n][k] == history[k];
      }
    }
  }

  /**
   What a new process starts with: the posture of the last history row that names one - rows that do not
   are passed over - or else what the denials logged call for, raised to the floor; the configured
   environment; and an empty memory.
   */
  lemma ProcessStartsWith(c: Config, s: State, i: nat)
    ensures var live := Step(c, s, Restart).live;
            && live.environment == c.environment && live.events == [] && live.graph == EMPTY_GRAPH
            && live.registry == EMPTY_REGISTRY
            && (i < |s.disk.history| && s.disk.history[i].newPosture.Some?
                && (forall k :: i < k < |s.disk.history| ==> s.disk.history[k].newPosture == None) ==>
                  live.posture == AtLeastPosture(s.disk.history[i].newPosture.value, c.floor))
            && ((forall k :: 0 <= k < |s.disk.history| ==> s.disk.history[k].newPosture == None) ==>
                  live.posture == AtLeastPosture(PostureForDenials(Denials(s.disk.decisions)), c.floor))
  {
    var last := LastPostureIs(s.disk.history);
    if i < |s.disk.history| && s.disk.history[i].newPosture.Some?
       && (forall k :: i < k < |s.disk.history| ==> s.disk.history[k].newPosture == None) {
      assert i == last;
    }
  }

  /** A capability registered and evaluated through the runtime can run iff it is verified and passed. */
  lemma RegisteredCapabilityMayRun(c: Config, s: State, name: string, record: CapabilityRecord,
                                   evaluation: CapabilityEvaluation)
    requires name !in s.live.registry.executables && record.id == name && record.evaluations == []
    ensures var t := Step(c, Step(c, s, RegisterCapability(name, Some(record))), AddEvaluation(name, evaluation));
            && (MayRun(t.live.registry, name) <==> record.integrityVerified && evaluation.passed)
            && t.disk == s.disk && t.live.posture == s.live.posture
  {
    RegisteredCapabilityCanBeAdmitted(s.live.registry, name, record, evaluation);
  }

  /** Recording raises the posture to what the window calls for, and a severe outcome one rung beyond that. */
  lemma RecordingRaises(c: Config, s: State, decision: PolicyDecision, severe: bool,
                        evidence: Option<MSF.EvidenceEvent>, at: int)
    ensures var before, after := PostureSeverity(s.live.posture),
                                 PostureSeverity(Apply(c, s, Recorded(decision, severe, evidence, at)).live.posture);
            var window := LastOnes(s.live.events + [decision], 1000);
            var called := PostureSeverity(PostureForDenials(WindowDenials(window, 60, at)));
            after == Min(3, Max(before, called) + if severe then 1 else 0)
  {
  }

  /** An operator's posture is live at once, and an operator's environment too if it is a known one. */
  lemma OperatorSettingsAreLive(c: Config, s: State, p: Posture, name: string)
    ensures Step(c, s, SetPosture(p)).live == s.live.(posture := p)
    ensures Step(c, s, SetEnvironment(name)).live ==
            if name in c.profiles then s.live.(environment := name) else s.live
    ensures Step(c, s, SetEnvironment(name)).disk == s.disk
  {
  }

  // ---- the lock is reached -------------------------------------------------------------------

  /** An intent with an injected instruction, governed for the record: severe unless already locked. */
  lemma InjectedIntentIsSevere(names: Names, g: MSF.Governor, profiles: map<string, EnvironmentProfile>,
                               environment: string, floor: Posture, s: State, e: Event)
    requires e.EvaluateMetasploit? && e.record && NormalizeEntries(e.intent.params).Ok? && MSF.Injected(g, e.intent)
    ensures IsSevereRecord(EffectOf(Wired(names, g, profiles, environment, floor), s, e)) <==> s.live.posture != Locked
  {
    MSF.AllowsIff(g, e.intent, e.mode, s.live.environment, s.live.posture, e.token, e.now, e.decisionId);
    MSF.SevereIff(g, e.intent, e.mode, s.live.environment, s.live.posture, e.token, e.now, e.decisionId);
  }

  /** An intent put with a signature that cannot be compared raises before anything is recorded. */
  lemma IncomparableTokenLeavesNoTrace(names: Names, g: MSF.Governor, profiles: map<string, EnvironmentProfile>,
                                       environment: string, floor: Posture, s: State, e: Event)
    requires e.EvaluateMetasploit? && MSF.Incomparable(g, e.intent, e.mode, s.live.posture, e.token)
    ensures Step(Wired(names, g, profiles, environment, floor), s, e) == s
  {
    MSF.AllowsIff(g, e.intent, e.mode, s.live.environment, s.live.posture, e.token, e.now, e.decisionId);
  }

  lemma SevereUnlessLockedTightens(c: Config, s: State, e: Event)
    requires PostureIsPersisted(c, s) && !e.SetPosture?
    requires s.live.posture != Locked ==> IsSevereRecord(EffectOf(c, s, e))
    ensures PostureIsPersisted(c, Step(c, s, e))
    ensures PostureSeverity(Step(c, s, e).live.posture) >= Min(3, PostureSeverity(s.live.posture) + 1)
  {
    StepOnlyTightens(c, s, e);
    ApplyKeepsPosturePersisted(c, s, EffectOf(c, s, e));
  }

  lemma InjectedIntentTightens(names: Names, g: MSF.Governor, profiles: map<string, EnvironmentProfile>,
                               environment: string, floor: Posture, s: State, e: Event)
    requires e.EvaluateMetasploit? && e.record && NormalizeEntries(e.intent.params).Ok? && MSF.Injected(g, e.intent)
    requires PostureIsPersisted(Wired(names, g, profiles, environment, floor), s)
    ensures var c := Wired(names, g, profiles, environment, floor);
            && PostureIsPersisted(c, Step(c, s, e))
            && PostureSeverity(Step(c, s, e).live.posture) >= Min(3, PostureSeverity(s.live.posture) + 1)
  {
    InjectedIntentIsSevere(names, g, profiles, environment, floor, s, e);
    SevereUnlessLockedTightens(Wired(names, g, profiles, environment, floor), s, e);
  }

  lemma RunOfThree(c: Config, s: State, e: Event)
    ensures Run(c, s, [e, e, e]) == Step(c, Step(c, Step(c, s, e), e), e)
  {
    assert [e, e, e][..2] == [e, e] && [e, e][..1] == [e] && [e][..0] == [];
    assert Run(c, s, [e]) == Step(c, s, e);
    assert Run(c, s, [e, e]) == Step(c, Step(c, s, e), e);
  }

  /** The lock can be reached from anywhere: one injected instruction, put three times, locks any runtime. */
  lemma InjectedIntentsReachLock(names: Names, g: MSF.Governor, profiles: map<string, EnvironmentProfile>,
                                 environment: string, floor: Posture, disk: Disk, prior: seq<Event>, e: Event)
    requires e.EvaluateMetasploit? && e.record && NormalizeEntries(e.intent.params).Ok? && MSF.Injected(g, e.intent)
    ensures var c := Wired(names, g, profiles, environment, floor);
            Run(c, Run(c, Boot(c, disk), prior), [e, e, e]).live.posture == Locked
  {
    var c := Wired(names, g, profiles, environment, floor);
    var s := Run(c, Boot(c, disk), prior);
    RunKeepsPosturePersisted(c, disk, prior);
    InjectedIntentTightens(names, g, profiles, environment, floor, s, e);
    InjectedIntentTightens(names, g, profiles, environment, floor, Step(c, s, e), e);
    InjectedIntentTightens(names, g, profiles, environment, floor, Step(c, Step(c, s, e), e), e);
    RunOfThree(c, s, e);
  }

  // ---- graph, telemetry and log agree --------------------------------------------------------

  /** Memory is what was observed since boot; the log is the log at boot and what was observed since. */
  ghost predicate MemoryMatchesLog(s: State) {
    var recorded := DecisionsOf(s.trace.observed);
    && s.live.graph == GraphOf(recorded)
    && s.live.events == EventsAfter(s.trace.observed)
    && s.disk.decisions == s.trace.bootLog + recorded
  }

  lemma ObserveOne(observed: seq<Observation>, o: Observation)
    ensures DecisionsOf(observed + [o]) == DecisionsOf(observed) + [o.decision]
    ensures EventsAfter(observed + [o]) == LastOnes(EventsAfter(observed) + [o.decision], MAX_EVENTS)
  {
    assert (observed + [o])[..|observed|] == observed;
  }

  lemma GraphTakesOne(ds: seq<PolicyDecision>, d: PolicyDecision)
    ensures GraphOf(ds + [d]) == WithDecision(GraphOf(ds), d)
  {
    assert (ds + [d])[..|ds|] == ds;
  }

  lemma LogTakesOne(log: seq<PolicyDecision>, ds: seq<PolicyDecision>, d: PolicyDecision)
    ensures (log + ds) + [d] == log + (ds + [d])
  {
  }

  lemma RecordKeepsMemory(s: State, decision: PolicyDecision, severe: bool, at: int)
    requires MemoryMatchesLog(s)
    ensures MemoryMatchesLog(WithRecord(s, decision, severe, at))
  {
    ObserveOne(s.trace.observed, Observation(decision, at));
    GraphTakesOne(DecisionsOf(s.trace.observed), decision);
    LogTakesOne(s.trace.bootLog, DecisionsOf(s.trace.observed), decision);
  }

  lemma ApplyKeepsMemory(c: Config, s: State, e: Effect)
    requires MemoryMatchesLog(s)
    ensures MemoryMatchesLog(Apply(c, s, e))
  {
    match e
    case Recorded(decision, severe, _, at) => RecordKeepsMemory(s, decision, severe, at);
    case Called(_, decision, at, _, _) => RecordKeepsMemory(s, decision, false, at);
    case Restarted => assert s.disk.decisions + [] == s.disk.decisions;
    case _ =>
  }

  lemma {:induction false} RunKeepsMemory(c: Config, disk: Disk, events: seq<Event>)
    ensures MemoryMatchesLog(Run(c, Boot(c, disk), events))
  {
    if events == [] {
      assert disk.decisions + [] == disk.decisions;
    } else {
      var n := |events| - 1;
      RunKeepsMemory(c, disk, events[..n]);
      var s := Run(c, Boot(c, disk), events[..n]);
      ApplyKeepsMemory(c, s, EffectOf(c, s, events[n]));
    }
  }

  predicate NoRestart(events: seq<Event>) {
    forall i :: 0 <= i < |events| ==> !events[i].Restart?
  }

  lemma StepKeepsBootLog(c: Config, s: State, e: Event)
    requires !e.Restart?
    ensures Step(c, s, e).trace.bootLog == s.trace.bootLog
  {
  }

  lemma {:induction false} OneProcessKeepsBootLog(c: Config, disk: Disk, events: seq<Event>)
    requires NoRestart(events)
    ensures Run(c, Boot(c, disk), events).trace.bootLog == disk.decisions
  {
    if events != [] {
      var init, e := events[..|events| - 1], events[|events| - 1];
      assert !e.Restart?;
      OneProcessKeepsBootLog(c, disk, init);
      StepKeepsBootLog(c, Run(c, Boot(c, disk), init), e);
    }
  }

  /**
   Replaying the decision log rebuilds the live graph, joined behind the graph of the log the process
   found when it started; only timestamps differ. On a fresh directory it is the live graph.
   */
  lemma ReplayRebuildsGraph(c: Config, disk: Disk, events: seq<Event>, clock: nat -> int)
    ensures var s := Run(c, Boot(c, disk), events);
            && Untimed(GraphOf(Replayed(s.disk.decisions, clock))) ==
               Untimed(Joined(GraphOf(s.trace.bootLog), s.live.graph))
            && (disk.decisions == [] && NoRestart(events) ==>
                  Untimed(GraphOf(Replayed(s.disk.decisions, clock))) == Untimed(s.live.graph))
  {
    RunKeepsMemory(c, disk, events);
    var s := Run(c, Boot(c, disk), events);
    ReplayIsFaithful(s.disk.decisions, clock);
    GraphOfParts(s.trace.bootLog, DecisionsOf(s.trace.observed));
    if disk.decisions == [] && NoRestart(events) {
      OneProcessKeepsBootLog(c, disk, events);
      assert [] + DecisionsOf(s.trace.observed) == DecisionsOf(s.trace.observed);
    }
  }

  predicate Quiet(c: Config, s: State, events: seq<Event>) {
    NoOperatorSet(events) && NoRestart(events) && SevereCount(c, s, events) == 0
  }

  lemma ApplyFollowsWindow(c: Config, s: State, e: Effect, start: Posture)
    requires MemoryMatchesLog(s) && s.live.posture == PostureAfter(start, s.trace.observed)
    requires !e.PostureSet? && !e.Restarted? && !IsSevereRecord(e)
    ensures Apply(c, s, e).live.posture == PostureAfter(start, Apply(c, s, e).trace.observed)
  {
    if e.Recorded? || e.Called? {
      var observed := s.trace.observed + [Observation(e.decision, e.at)];
      assert observed[..|s.trace.observed|] == s.trace.observed;
    }
  }

  lemma QuietPrefix(c: Config, s: State, events: seq<Event>)
    requires Quiet(c, s, events) && events != []
    ensures var n := |events| - 1;
            var effect := EffectOf(c, Run(c, s, events[..n]), events[n]);
            Quiet(c, s, events[..n]) && !effect.PostureSet? && !effect.Restarted? && !IsSevereRecord(effect)
  {
    assert !events[|events| - 1].SetPosture? && !events[|events| - 1].Restart?;
  }

  lemma {:induction false} QuietPostureFollowsWindow(c: Config, disk: Disk, events: seq<Event>)
    requires Quiet(c, Boot(c, disk), events)
    ensures var s := Run(c, Boot(c, disk), events);
            s.live.posture == PostureAfter(BootPosture(c, disk), s.trace.observed)
  {
    if events != [] {
      var n := |events| - 1;
      QuietPrefix(c, Boot(c, disk), events);
      QuietPostureFollowsWindow(c, disk, events[..n]);
      RunKeepsMemory(c, disk, events[..n]);
      var t := Run(c, Boot(c, disk), events[..n]);
      ApplyFollowsWindow(c, t, EffectOf(c, t, events[n]), BootPosture(c, disk));
    }
  }

  /**
   In a process that no operator and no severe outcome touches, live posture is the boot posture
   raised to what the worst window calls for. If the log began with that process, replaying it calls
   for at least as much.
   */
  lemma QuietPostureIsPeak(c: Config, disk: Disk, events: seq<Event>)
    requires Quiet(c, Boot(c, disk), events)
    ensures var s := Run(c, Boot(c, disk), events);
            && s.live.posture == AtLeastPosture(BootPosture(c, disk), PostureForDenials(Peak(s.trace.observed)))
            && (disk.decisions == [] ==>
                  PostureSeverity(s.live.posture) <=
                  PostureSeverity(AtLeastPosture(BootPosture(c, disk), RecoveredPosture(s.disk.decisions))))
  {
    var s := Run(c, Boot(c, disk), events);
    QuietPostureFollowsWindow(c, disk, events);
    OneProcessKeepsBootLog(c, disk, events);
    PostureRemembersPeak(BootPosture(c, disk), s.trace.observed);
    LivePostureIsWithinReplay(BootPosture(c, disk), s.trace.observed);
    RunKeepsMemory(c, disk, events);
    assert [] + DecisionsOf(s.trace.observed) == DecisionsOf(s.trace.observed);
  }

  // ---- dry runs ------------------------------------------------------------------------------

  predicate IsDryRun(e: Event) {
    (e.Evaluate? || e.EvaluateMetasploit?) && !e.record
  }

  function WithoutDryRuns(events: seq<Event>): seq<Event> {
    if events == [] then []
    else WithoutDryRuns(events[..|events| - 1])
         + (if IsDryRun(events[|events| - 1]) then [] else [events[|events| - 1]])
  }

  /** Erasing every dry run from a run changes nothing: not the files, not memory, not posture. */
  lemma {:induction false} DryRunsDoNotInterfere(c: Config, s: State, events: seq<Event>)
    ensures Run(c, s, events) == Run(c, s, WithoutDryRuns(events))
  {
    if events != [] {
      var n := |events| - 1;
      DryRunsDoNotInterfere(c, s, events[..n]);
      var kept := WithoutDryRuns(events[..n]);
      if IsDryRun(events[n]) {
        assert kept + [] == kept;
      } else {
        assert (kept + [events[n]])[..|kept|] == kept;
      }
    }
  }

  // ---- capability execution ------------------------------------------------------------------

  lemma {:induction false} RunOnlyAdds(c: Config, s: State, events: seq<Event>)
    ensures s.disk.decisions <= Run(c, s, events).disk.decisions
    ensures s.disk.capabilityEvidence <= Run(c, s, events).disk.capabilityEvidence
  {
    if events != [] { RunOnlyAdds(c, s, events[..|events| - 1]); }
  }

  /** What execution demands of the registry at the moment of the call. */
  predicate MayRun(r: Registry, name: string) {
    name in r.executables && name in r.records && Admissible(r.records[name])
  }

  /** The evidence a call owes: a row for its denial, one for its completion, none if it raised. */
  function EvidenceOf(m: Manifest, d: PolicyDecision, r: Registry, adapter: Option<string>): seq<CapabilityRow> {
    if d.decision != Allow then [ExecutionDenied(m.manifestId, m.capability, d)]
    else if MayRun(r, m.capability) && adapter.Some? then
      [ExecutionCompleted(m.manifestId, m.capability, Admitted, d, adapter.value)]
    else []
  }

  /** The evidence one event owes. */
  function EvidenceAt(c: Config, s: State, e: Event): seq<CapabilityRow> {
    if !e.ExecuteCapability? then [] else
    match PolicyFor(c, s, RequestOf(e.manifest), e.now)
    case None => []
    case Some(d) => EvidenceOf(e.manifest, d, s.live.registry, e.adapter)
  }

  /**
   What is owed to a call made in state ``s`` by the time the files are ``end``. The decision the policy
   makes for this very manifest stands in the log at the place the log had reached. The capability's code
   is entered iff that decision allows it and at that moment the capability is executable and its record
   verified, evaluated and in an admissible state. The evidence file holds, at the place it had reached,
   the one row the call owes if it returned. Nothing happens when the policy cannot be evaluated.
   */
  ghost predicate CallIsAuthorised(c: Config, s: State, e: Event, end: Disk)
    requires e.ExecuteCapability?
  {
    var m, r, effect := e.manifest, s.live.registry, EffectOf(c, s, e);
    match PolicyFor(c, s, RequestOf(m), e.now)
    case None => effect == Nothing
    case Some(d) =>
      && effect.Called?
      && s.disk.decisions + [d] <= end.decisions
      && (effect.outcome.Ran() <==> d.decision == Allow && MayRun(r, m.capability))
      && (effect.outcome.Ran() ==> effect.outcome.record == r.records[m.capability].(status := Admitted))
      && s.disk.capabilityEvidence + EvidenceOf(m, d, r, e.adapter) <= end.capabilityEvidence
  }

  lemma StepAuthorisesCall(c: Config, s: State, e: Event)
    requires e.ExecuteCapability?
    ensures CallIsAuthorised(c, s, e, Step(c, s, e).disk)
    ensures Step(c, s, e).disk.capabilityEvidence == s.disk.capabilityEvidence + EvidenceAt(c, s, e)
  {
  }

  lemma LaterIsAuthorised(c: Config, s: State, e: Event, sooner: Disk, later: Disk)
    requires e.ExecuteCapability? && CallIsAuthorised(c, s, e, sooner)
    requires sooner.decisions <= later.decisions && sooner.capabilityEvidence <= later.capabilityEvidence
    ensures CallIsAuthorised(c, s, e, later)
  {
  }

  lemma RunPasses(c: Config, s: State, events: seq<Event>, i: nat)
    requires i < |events|
    ensures var soon, end := Step(c, Run(c, s, events[..i]), events[i]).disk, Run(c, s, events).disk;
            soon.decisions <= end.decisions && soon.capabilityEvidence <= end.capabilityEvidence
  {
    var front, back := events[..i + 1], events[i + 1..];
    assert front[..i] == events[..i];
    assert events == front + back;
    RunsJoin(c, s, front, back);
    RunOnlyAdds(c, Run(c, s, front), back);
  }

  /** Every call of every run, restarts included, is authorised for good. */
  lemma ExecutionsAreAuthorised(c: Config, disk: Disk, events: seq<Event>, i: nat)
    requires i < |events| && events[i].ExecuteCapability?
    ensures CallIsAuthorised(c, Run(c, Boot(c, disk), events[..i]), events[i], Run(c, Boot(c, disk), events).disk)
  {
    var s := Run(c, Boot(c, disk), events[..i]);
    StepAuthorisesCall(c, s, events[i]);
    RunPasses(c, Boot(c, disk), events, i);
    LaterIsAuthorised(c, s, events[i], Step(c, s, events[i]).disk, Run(c, Boot(c, disk), events).disk);
  }

  /** With the real policy engine that decision names the call's actor, its action and what it is aimed at. */
  lemma CallDecisionNamesCall(names: Names, g: MSF.Governor, profiles: map<string, EnvironmentProfile>,
                              environment: string, floor: Posture, s: State, m: Manifest, now: int)
    ensures var d := PolicyFor(Wired(names, g, profiles, environment, floor), s, RequestOf(m), now);
            d.Some? ==>
              && d.value.actor == m.actor && d.value.action == m.action
              && d.value.target == (if m.target in {None, Some("")} then m.capability else m.target.value)
              && d.value.environment == s.live.environment
  {
    if Listed(s.disk.rules).Some? && s.live.environment in profiles {
      DecisionNamesRequest(names, RequestOf(m),
                           Context(s.live.environment, profiles[s.live.environment], s.live.posture, now),
                           Listed(s.disk.rules).value);
    }
  }

  lemma StepAddsEvidence(c: Config, s: State, e: Event)
    ensures Step(c, s, e).disk.capabilityEvidence == s.disk.capabilityEvidence + EvidenceAt(c, s, e)
  {
    if e.ExecuteCapability? { StepAuthorisesCall(c, s, e); }
  }

  /** What the events of a run owe a file, in order. */
  function Owed<T>(c: Config, s: State, events: seq<Event>, at: (Config, State, Event) -> seq<T>): seq<T> {
    if events == [] then [] else
    var n := |events| - 1;
    Owed(c, s, events[..n], at) + at(c, Run(c, s, events[..n]), events[n])
  }

  /** The decision one event logs: every recorded one, and none of a dry run or a call that raised. */
  function DecisionsAt(c: Config, s: State, e: Event): seq<PolicyDecision> {
    match e
    case Evaluate(req, record, now, _) => if record then Listing(PolicyFor(c, s, req, now)) else []
    case RecordDecision(d, _) => [d]
    case EvaluateMetasploit(_, _, _, record, _, _, _) =>
      var o := MetasploitFor(c, s, e);
      if record && o.Some? then [o.value.decision] else []
    case ExecuteCapability(m, now, _, _) => Listing(PolicyFor(c, s, RequestOf(m), now))
    case _ => []
  }

  /** The governor's evidence, one row for each recorded outcome. */
  function GovernorEvidenceAt(c: Config, s: State, e: Event): seq<MSF.EvidenceEvent> {
    if !e.EvaluateMetasploit? || !e.record then [] else
    match MetasploitFor(c, s, e) case Some(o) => [o.evidence] case None => []
  }

  /** A row of posture history for each change of posture, from what it was to what it became. */
  function HistoryAt(c: Config, s: State, e: Event): seq<HistoryRow> {
    var before, after := s.live.posture, Step(c, s, e).live.posture;
    if e.Restart? || before == after then [] else [HistoryRow(Some(before), Some(after))]
  }

  lemma StepAddsExactly(c: Config, s: State, e: Event)
    ensures var t := Step(c, s, e).disk;
            && t.decisions == s.disk.decisions + DecisionsAt(c, s, e)
            && t.evidence == s.disk.evidence + GovernorEvidenceAt(c, s, e)
            && t.history == s.disk.history + HistoryAt(c, s, e)
            && t.rules == (match e case RewriteRules(rules) => rules case Restart => Upgraded(s.disk.rules)
                                   case _ => s.disk.rules)
  {
    assert s.disk.decisions + [] == s.disk.decisions && s.disk.evidence + [] == s.disk.evidence;
    assert s.disk.history + [] == s.disk.history;
  }

  lemma OwedStep<T>(first: seq<T>, owed: seq<T>, more: seq<T>)
    ensures (first + owed) + more == first + (owed + more)
  {
  }

  /**
   The files of every run, restarts included, hold what they held at first and exactly what its events
   owe, in order: a logged decision for each recorded evaluation and each call, a row of evidence for each
   recorded outcome of the governor, and a row of history for each change of posture.
   */
  lemma {:induction false} FilesAreExact(c: Config, s: State, events: seq<Event>)
    ensures var t := Run(c, s, events).disk;
            && t.decisions == s.disk.decisions + Owed(c, s, events, DecisionsAt)
            && t.evidence == s.disk.evidence + Owed(c, s, events, GovernorEvidenceAt)
            && t.history == s.disk.history + Owed(c, s, events, HistoryAt)
  {
    if events == [] {
      assert s.disk.decisions + [] == s.disk.decisions && s.disk.evidence + [] == s.disk.evidence;
      assert s.disk.history + [] == s.disk.history;
    } else {
      var init, e := events[..|events| - 1], events[|events| - 1];
      FilesAreExact(c, s, init);
      var t := Run(c, s, init);
      StepAddsExactly(c, t, e);
      OwedStep(s.disk.decisions, Owed(c, s, init, DecisionsAt), DecisionsAt(c, t, e));
      OwedStep(s.disk.evidence, Owed(c, s, init, GovernorEvidenceAt), GovernorEvidenceAt(c, t, e));
      OwedStep(s.disk.history, Owed(c, s, init, HistoryAt), HistoryAt(c, t, e));
    }
  }

  /** And the evidence file holds nothing else: what it held at first, and what the calls owe, in order. */
  lemma {:induction false} EvidenceIsExact(c: Config, s: State, events: seq<Event>)
    ensures Run(c, s, events).disk.capabilityEvidence == s.disk.capabilityEvidence + Owed(c, s, events, EvidenceAt)
  {
    if events == [] {
      assert s.disk.capabilityEvidence + [] == s.disk.capabilityEvidence;
    } else {
      var init, e := events[..|events| - 1], events[|events| - 1];
      EvidenceIsExact(c, s, init);
      var t := Run(c, s, init);
      StepAddsEvidence(c, t, e);
      OwedStep(s.disk.capabilityEvidence, Owed(c, s, init, EvidenceAt), EvidenceAt(c, t, e));
    }
  }
}
