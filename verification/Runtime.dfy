/**
 The runtime that wires policy, governor, telemetry, graph, registry and the persisted logs together
 (src/rif_runtime/runtime.py). A call first settles what is to happen, then applies it; appends are
 taken to succeed.
 */
module Runtime {
  import opened Wrappers
  import opened Schemas
  import opened Governance
  import opened GraphMemory
  import opened CapabilityRegistries
  import opened Policy
  import opened PolicyStorage
  import opened PythonValues
  import MSF = Metasploit

  /** Request, context and rules to a decision; some targets raise. */
  type PolicyEngine = (PolicyRequest, Context, seq<PolicyRule>) -> Option<PolicyDecision>

  /** Intent, lane, environment, posture, token, time and evidence id to an outcome; some parameters raise. */
  type MetasploitGovernor =
    (MSF.Intent, MSF.GovernanceMode, string, Posture, Option<MSF.CapabilityToken>, int, string)
    -> Result<MSF.GovernanceOutcome, TypeError>

  /** The components a runtime is built from and what configuration fixes for its data directory. */
  datatype Config = Config(
    policy: PolicyEngine,
    metasploit: MetasploitGovernor,
    profiles: map<string, EnvironmentProfile>,
    environment: string,
    floor: Posture)

  /** The configuration with the real components in it. */
  function Wired(names: Names, governor: MSF.Governor, profiles: map<string, EnvironmentProfile>,
                 environment: string, floor: Posture): Config
  {
    Config((req, context, rules) => Policy.Judge(names, req, context, rules),
           (intent, mode, env, posture, token, now, id) =>
             MSF.Evaluate(governor, intent, mode, env, posture, token, now, id),
           profiles, environment, floor)
  }

  /** A row of posture_history.jsonl; ``newPosture`` is missing when the row does not name a posture. */
  datatype HistoryRow = HistoryRow(oldPosture: Option<Posture>, newPosture: Option<Posture>)

  datatype Manifest =
    Manifest(manifestId: string, actor: string, capability: string, action: string, target: Option<string>)

  datatype CapabilityRow =
    | ExecutionDenied(manifestId: string, capability: string, decision: PolicyDecision)
    | ExecutionCompleted(manifestId: string, capability: string, status: CapabilityStatus, decision: PolicyDecision,
                         result: string)

  /** How one ``execute_capability`` call ended. ``AdapterRaised``: the capability ran and raised. */
  datatype CallOutcome =
    | CallDenied
    | CallRaised(error: RegistryError)
    | AdapterRaised(record: CapabilityRecord)
    | CallCompleted(record: CapabilityRecord, result: string)
  {
    /** The capability's own code was entered. */
    predicate Ran() { AdapterRaised? || CallCompleted? }
  }

  /** The files of the data directory. */
  datatype Disk = Disk(
    rules: seq<RawRule>,
    decisions: seq<PolicyDecision>,
    history: seq<HistoryRow>,
    evidence: seq<MSF.EvidenceEvent>,
    capabilityEvidence: seq<CapabilityRow>)

  /** What a process holds in memory. */
  datatype Live = Live(
    posture: Posture,
    environment: string,
    events: seq<PolicyDecision>,
    graph: Graph,
    registry: Registry)

  /** History kept for stating properties: the log and posture at boot, what was observed since. */
  datatype Trace = Trace(
    bootLog: seq<PolicyDecision>,
    bootPosture: Posture,
    observed: seq<Observation>)

  datatype State = State(disk: Disk, live: Live, trace: Trace)

  // ---- starting up ---------------------------------------------------------------------------

  /** The last row that names a posture. */
  function LastPosture(history: seq<HistoryRow>): Option<Posture> {
    if history == [] then None
    else if history[|history| - 1].newPosture.Some? then history[|history| - 1].newPosture
    else LastPosture(history[..|history| - 1])
  }

  function RestoredPosture(disk: Disk): Posture {
    OrElse(LastPosture(disk.history), RecoveredPosture(disk.decisions))
  }

  function BootPosture(c: Config, disk: Disk): Posture {
    AtLeastPosture(RestoredPosture(disk), c.floor)
  }

  function Boot(c: Config, disk: Disk): State {
    var posture := BootPosture(c, disk);
    State(disk.(rules := Upgraded(disk.rules)),
          Live(posture, c.environment, [], EMPTY_GRAPH, EMPTY_REGISTRY),
          Trace(disk.decisions, posture, []))
  }

  // ---- what a call does ----------------------------------------------------------------------

  datatype Effect =
    | Nothing
    | Recorded(decision: PolicyDecision, severe: bool, evidence: Option<MSF.EvidenceEvent>, at: int)
    | Called(manifest: Manifest, decision: PolicyDecision, at: int, outcome: CallOutcome, registry: Registry)
    | PostureSet(posture: Posture)
    | EnvironmentSet(name: string)
    | RulesSet(rules: seq<RawRule>)
    | RegistrySet(registry: Registry)
    | Restarted

  function Moved(history: seq<HistoryRow>, before: Posture, after: Posture): seq<HistoryRow> {
    if before == after then history else history + [HistoryRow(Some(before), Some(after))]
  }

  function PostureWith(s: State, decision: PolicyDecision, severe: bool, at: int): Posture {
    var observed := NextPosture(s.live.posture,
                                WindowDenials(LastOnes(s.live.events + [decision], MAX_EVENTS), 60, at));
    if severe then EscalatePosture(observed) else observed
  }

  /** Graph, telemetry, posture, decision log and posture history take one decision in. */
  function WithRecord(s: State, decision: PolicyDecision, severe: bool, at: int): State {
    var posture := PostureWith(s, decision, severe, at);
    State(s.disk.(decisions := s.disk.decisions + [decision],
                  history := Moved(s.disk.history, s.live.posture, posture)),
          s.live.(posture := posture, events := LastOnes(s.live.events + [decision], MAX_EVENTS),
                  graph := WithDecision(s.live.graph, decision)),
          s.trace.(observed := s.trace.observed + [Observation(decision, at)]))
  }

  function RowFor(m: Manifest, decision: PolicyDecision, outcome: CallOutcome): Option<CapabilityRow> {
    match outcome
    case CallDenied => Some(ExecutionDenied(m.manifestId, m.capability, decision))
    case CallCompleted(record, result) =>
      Some(ExecutionCompleted(m.manifestId, m.capability, record.status, decision, result))
    case _ => None
  }

  function Listing<T>(o: Option<T>): seq<T> {
    match o case Some(v) => [v] case None => []
  }

  function Apply(c: Config, s: State, e: Effect): State {
    match e
    case Nothing => s
    case Recorded(decision, severe, evidence, at) =>
      var t := WithRecord(s, decision, severe, at);
      t.(disk := t.disk.(evidence := t.disk.evidence + Listing(evidence)))
    case Called(manifest, decision, at, outcome, registry) =>
      var t := WithRecord(s, decision, false, at);
      State(t.disk.(capabilityEvidence := t.disk.capabilityEvidence + Listing(RowFor(manifest, decision, outcome))),
            t.live.(registry := registry), t.trace)
    case PostureSet(posture) =>
      s.(disk := s.disk.(history := Moved(s.disk.history, s.live.posture, posture)),
        live := s.live.(posture := posture))
    case EnvironmentSet(name) => s.(live := s.live.(environment := name))
    case RulesSet(rules) => s.(disk := s.disk.(rules := rules))
    case RegistrySet(registry) => s.(live := s.live.(registry := registry))
    case Restarted => Boot(c, s.disk)
  }

  // ---- settling what is to happen ------------------------------------------------------------

  datatype Event =
    | Evaluate(req: PolicyRequest, record: bool, now: int, at: int)
    | RecordDecision(decision: PolicyDecision, at: int)
    | EvaluateMetasploit(intent: MSF.Intent, mode: MSF.GovernanceMode, token: Option<MSF.CapabilityToken>,
                         record: bool, now: int, decisionId: string, at: int)
    | ExecuteCapability(manifest: Manifest, now: int, at: int, adapter: Option<string>)
    | SetPosture(posture: Posture)
    | SetEnvironment(name: string)
    | RewriteRules(rules: seq<RawRule>)
    | RegisterCapability(name: string, governance: Option<CapabilityRecord>)
    | AddEvaluation(name: string, evaluation: CapabilityEvaluation)
    | Restart

  /** The engine's decision; none when it raises or the stored rules or the environment name are unusable. */
  function PolicyFor(c: Config, s: State, req: PolicyRequest, now: int): Option<PolicyDecision> {
    if Listed(s.disk.rules).None? || s.live.environment !in c.profiles then None
    else c.policy(req, Context(s.live.environment, c.profiles[s.live.environment], s.live.posture, now),
                  Listed(s.disk.rules).value)
  }

  function MetasploitFor(c: Config, s: State, e: Event): Option<MSF.GovernanceOutcome>
    requires e.EvaluateMetasploit?
  {
    match c.metasploit(e.intent, e.mode, s.live.environment, s.live.posture, e.token, e.now, e.decisionId)
    case Ok(outcome) => Some(outcome)
    case Err(_) => None
  }

  function RequestOf(m: Manifest): PolicyRequest {
    PolicyRequest(m.actor, m.action, if m.target.Some? && m.target.value != "" then m.target.value else m.capability)
  }

  function OutcomeFor(r: Registry, m: Manifest, decision: PolicyDecision, adapter: Option<string>): CallOutcome {
    if decision.decision != Allow then CallDenied else
    match AdmissionError(r, m.capability)
    case Some(e) => CallRaised(e)
    case None =>
      var admitted := AfterAdmit(r, m.capability);
      if m.capability !in r.executables then CallRaised(NoExecutable)
      else if adapter.None? then AdapterRaised(admitted.records[m.capability])
      else CallCompleted(admitted.records[m.capability], adapter.value)
  }

  function EffectOf(c: Config, s: State, e: Event): Effect {
    match e
    case Evaluate(req, record, now, at) =>
      var d := PolicyFor(c, s, req, now);
      if d.None? || !record then Nothing else Recorded(d.value, false, None, at)
    case RecordDecision(decision, at) => Recorded(decision, false, None, at)
    case EvaluateMetasploit(_, _, _, record, _, _, at) =>
      var o := MetasploitFor(c, s, e);
      if o.None? || !record then Nothing
      else Recorded(o.value.decision, o.value.severe, Some(o.value.evidence), at)
    case ExecuteCapability(m, now, at, adapter) =>
      var d := PolicyFor(c, s, RequestOf(m), now);
      if d.None? then Nothing else
      Called(m, d.value, at, OutcomeFor(s.live.registry, m, d.value, adapter),
             if d.value.decision == Allow then AfterAdmit(s.live.registry, m.capability) else s.live.registry)
    case SetPosture(p) => PostureSet(p)
    case SetEnvironment(name) => if name in c.profiles then EnvironmentSet(name) else Nothing
    case RewriteRules(rules) => RulesSet(rules)
    case RegisterCapability(name, record) => RegistrySet(AfterRegister(s.live.registry, name, record))
    case AddEvaluation(name, evaluation) => RegistrySet(AfterEvaluation(s.live.registry, name, evaluation))
    case Restart => Restarted
  }

  function Step(c: Config, s: State, e: Event): State {
    Apply(c, s, EffectOf(c, s, e))
  }

  function Run(c: Config, s: State, events: seq<Event>): State {
    if events == [] then s else Step(c, Run(c, s, events[..|events| - 1]), events[|events| - 1])
  }

  // ---- the runtime object --------------------------------------------------------------------

  class RIFRuntime {
    const config: Config
    const policyStore: PolicyStore
    const reflexive: ReflexiveLoop
    const governanceGraph: GovernanceGraph
    const registry: CapabilityRegistry

    var posture: Posture
    var environmentName: string
    var decisions: seq<PolicyDecision>
    var history: seq<HistoryRow>
    var evidence: seq<MSF.EvidenceEvent>
    var capabilityEvidence: seq<CapabilityRow>
    ghost var trace: Trace

    ghost predicate Valid()
      reads this
    {
      reflexive.telemetry.maxEvents == MAX_EVENTS
    }

    ghost function Value(): State
      reads this, policyStore, reflexive.telemetry, governanceGraph, registry
    {
      State(Disk(policyStore.rules, decisions, history, evidence, capabilityEvidence),
            Live(posture, environmentName, reflexive.telemetry.events, governanceGraph.Value(), registry.Value()),
            trace)
    }

    /** Starts a process on a data directory: the last persisted posture, raised to the configured floor. */
    constructor (c: Config, disk: Disk)
      ensures config == c && Valid() && Value() == Boot(c, disk)
      ensures fresh(policyStore) && fresh(reflexive.telemetry) && fresh(governanceGraph) && fresh(registry)
    {
      config := c;
      policyStore := new PolicyStore(Some(disk.rules));
      reflexive := new ReflexiveLoop();
      governanceGraph := new GovernanceGraph();
      registry := new CapabilityRegistry();
      environmentName := c.environment;
      decisions, history := disk.decisions, disk.history;
      evidence, capabilityEvidence := disk.evidence, disk.capabilityEvidence;
      posture := AtLeastPosture(RestoredPosture(disk), c.floor);
      trace := Trace(disk.decisions, BootPosture(c, disk), []);
    }

    method SetPosture(p: Posture)
      requires Valid()
      modifies this
      ensures Valid() && Value() == Step(config, old(Value()), Event.SetPosture(p))
    {
      var oldPosture := posture;
      posture := p;
      if oldPosture != p {
        history := history + [HistoryRow(Some(oldPosture), Some(p))];
      }
    }

    method SetEnvironment(name: string) returns (ok: bool)
      requires Valid()
      modifies this
      ensures Valid() && Value() == Step(config, old(Value()), Event.SetEnvironment(name))
      ensures ok <==> name in config.profiles
    {
      if name !in config.profiles { return false; }
      environmentName := name;
      return true;
    }

    /** What recording a decision and recording a governor outcome have in common. */
    method TakeIn(decision: PolicyDecision, severe: bool, at: int)
      requires Valid()
      modifies this, reflexive.telemetry, governanceGraph
      ensures Valid() && Value() == WithRecord(old(Value()), decision, severe, at)
    {
      governanceGraph.RecordDecision(decision);
      var oldPosture := posture;
      posture := reflexive.Observe(decision, posture, at);
      if severe { posture := EscalatePosture(posture); }
      decisions := decisions + [decision];
      if oldPosture != posture {
        history := history + [HistoryRow(Some(oldPosture), Some(posture))];
      }
      trace := trace.(observed := trace.observed + [Observation(decision, at)]);
    }

    method RecordDecision(decision: PolicyDecision, at: int)
      requires Valid()
      modifies this, reflexive.telemetry, governanceGraph
      ensures Valid() && Value() == WithRecord(old(Value()), decision, false, at)
      ensures Value() == Step(config, old(Value()), Event.RecordDecision(decision, at))
    {
      TakeIn(decision, false, at);
      assert evidence + [] == evidence;
    }

    /** A dry run returns the decision a recorded call would make and leaves everything as it was. */
    method Evaluate(req: PolicyRequest, record: bool, now: int, at: int) returns (d: Option<PolicyDecision>)
      requires Valid()
      modifies this, reflexive.telemetry, governanceGraph
      ensures Valid() && d == PolicyFor(config, old(Value()), req, now)
      ensures Value() == Step(config, old(Value()), Event.Evaluate(req, record, now, at))
    {
      var rules := Listed(policyStore.rules);
      if rules.None? || environmentName !in config.profiles { return None; }
      var decision := config.policy(req, Context(environmentName, config.profiles[environmentName], posture, now),
                                    rules.value);
      if decision.Some? && record { RecordDecision(decision.value, at); }
      return decision;
    }

    method EvaluateMetasploit(intent: MSF.Intent, mode: MSF.GovernanceMode, token: Option<MSF.CapabilityToken>,
                              record: bool, now: int, decisionId: string, at: int)
      returns (o: Option<MSF.GovernanceOutcome>)
      requires Valid()
      modifies this, reflexive.telemetry, governanceGraph
      ensures var e := Event.EvaluateMetasploit(intent, mode, token, record, now, decisionId, at);
              Valid() && o == MetasploitFor(config, old(Value()), e) && Value() == Step(config, old(Value()), e)
    {
      var outcome := config.metasploit(intent, mode, environmentName, posture, token, now, decisionId);
      if outcome.Err? { return None; }
      if !record { return Some(outcome.value); }
      TakeIn(outcome.value.decision, outcome.value.severe, at);
      evidence := evidence + [outcome.value.evidence];
      return Some(outcome.value);
    }

    method RegisterCapability(name: string, record: Option<CapabilityRecord>) returns (error: Option<RegistryError>)
      requires Valid()
      modifies registry
      ensures Valid() && Value() == Step(config, old(Value()), Event.RegisterCapability(name, record))
      ensures error == None <==>
              name !in old(registry.executables) && (record.Some? ==> record.value.id == name)
    {
      error := registry.Register(name, record);
    }

    /** Admission, and then the capability's own code: ``adapter`` is what it returns, ``None`` if it raises. */
    method AdmitAndExecute(m: Manifest, d: PolicyDecision, adapter: Option<string>) returns (outcome: CallOutcome)
      requires d.decision == Allow
      modifies registry
      ensures registry.Value() == AfterAdmit(old(registry.Value()), m.capability)
      ensures outcome == OutcomeFor(old(registry.Value()), m, d, adapter)
    {
      var admitted := registry.Admit(m.capability);
      if admitted.Err? { return CallRaised(admitted.error); }
      if m.capability !in registry.executables { return CallRaised(NoExecutable); }
      if adapter.None? { return AdapterRaised(admitted.value); }
      return CallCompleted(admitted.value, adapter.value);
    }

    /**
     Policy first, admission second, execution last. ``outcome`` is ``None`` when the policy itself
     could not be evaluated.
     */
    method ExecuteCapability(m: Manifest, now: int, at: int, adapter: Option<string>)
      returns (outcome: Option<CallOutcome>)
      requires Valid()
      modifies this, reflexive.telemetry, governanceGraph, registry
      ensures Valid() && Value() == Step(config, old(Value()), Event.ExecuteCapability(m, now, at, adapter))
      ensures var effect := EffectOf(config, old(Value()), Event.ExecuteCapability(m, now, at, adapter));
              outcome == if effect.Called? then Some(effect.outcome) else None
    {
      var decision := Evaluate(RequestOf(m), true, now, at);
      if decision.None? { return None; }
      var d, end := decision.value, CallDenied;
      assert Value() == WithRecord(old(Value()), d, false, at) by { assert evidence + [] == evidence; }
      if d.decision == Allow { end := AdmitAndExecute(m, d, adapter); }
      capabilityEvidence := capabilityEvidence + Listing(RowFor(m, d, end));
      return Some(end);
    }
  }
}
