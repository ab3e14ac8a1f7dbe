/** The Metasploit governor (src/rif_runtime/mcp/metasploit.py, src/rif_runtime/mcp/capabilities.py). */
module Metasploit {
  import opened Wrappers
  import opened PythonValues
  import opened Schemas
  import opened Scanning

  // ---- the capability taxonomy ---------------------------------------------------------------

  datatype CapabilityClass = ReadOnly | Consequential | Unknown

  const READ_ONLY_CAPABILITIES: set<string> := {
    "module.search", "module.info", "module.metadata", "module.options", "module.references",
    "module.compatible", "remediation.context", "recon.read", "recon.lab_data"}

  const CONSEQUENTIAL_CAPABILITIES: set<string> := {
    "module.execute", "module.run", "exploit.run", "payload.generate", "handler.create", "listener.create",
    "session.create", "session.interact", "session.list", "route.add", "datastore.set", "target.set"}

  const SEVERE_CAPABILITIES: set<string> := {
    "session.create", "session.interact", "handler.create", "listener.create", "route.add", "scope.widen",
    "credentials.export", "artifact.export", "payload.export", "loot.export"}

  // ---- intents, tokens, evidence -------------------------------------------------------------

  datatype GovernanceMode = ReadOnlyFirewall | Shadow | LabBroker

  datatype Intent = Intent(
    actor: string,
    tool: string,
    capability: string,
    target: string,
    scopeId: string,
    text: Option<string>,
    params: seq<Entry>,
    untrustedContext: Option<string>)

  /** What the intent hash covers. */
  datatype IntentClaim = IntentClaim(tool: string, capability: string, target: string, scopeId: string, params: Row)

  datatype TokenClaim = TokenClaim(
    tokenId: string,
    capability: string,
    target: string,
    scopeId: string,
    intentHash: string,
    approver: string,
    issuedAt: int,
    expiresAt: int)

  datatype CapabilityToken = CapabilityToken(claim: TokenClaim, signature: string)

  datatype EvidenceClaim = EvidenceClaim(
    decisionId: string,
    intentHash: string,
    tool: string,
    requestedCapability: string,
    policyDecision: string,
    scopeId: string,
    contractHash: string,
    matchedRule: string,
    timestamp: string)

  datatype EvidenceEvent = EvidenceEvent(claim: EvidenceClaim, signature: string)

  datatype GovernanceOutcome =
    GovernanceOutcome(decision: PolicyDecision, evidence: EvidenceEvent, severe: bool, simulated: bool)

  /** Everything the broker key signs. */
  datatype Signable = OfToken(token: TokenClaim) | OfEvidence(evidence: EvidenceClaim)

  const INTENT_KEYS: seq<string> := ["tool", "capability", "target", "scope_id"]
  const TOKEN_KEYS: seq<string> :=
    ["token_id", "capability", "target", "scope_id", "intent_hash", "approver", "issued_at", "expires_at"]
  const EVIDENCE_KEYS: seq<string> :=
    ["decision_id", "intent_hash", "tool", "requested_capability", "policy_decision", "scope_id", "contract_hash",
     "matched_rule", "timestamp"]

  /** The dictionary ``intent_hash`` digests, in normal form. */
  function IntentJson(c: IntentClaim): Json {
    Obj(Object(INTENT_KEYS, [c.tool, c.capability, c.target, c.scopeId])["params" := Obj(c.params)])
  }

  /** ``signing_payload``; ``iso`` renders a time in UTC as ISO 8601. */
  function TokenTexts(iso: int -> string, c: TokenClaim): seq<string> {
    [c.tokenId, c.capability, c.target, c.scopeId, c.intentHash, c.approver, iso(c.issuedAt), iso(c.expiresAt)]
  }

  function EvidenceTexts(c: EvidenceClaim): seq<string> {
    [c.decisionId, c.intentHash, c.tool, c.requestedCapability, c.policyDecision, c.scopeId, c.contractHash,
     c.matchedRule, c.timestamp]
  }

  /** The dictionary that is signed. */
  function SignedJson(iso: int -> string, x: Signable): Json {
    match x
    case OfToken(c) => Obj(Object(TOKEN_KEYS, TokenTexts(iso, c)))
    case OfEvidence(c) => Obj(Object(EVIDENCE_KEYS, EvidenceTexts(c)))
  }

  predicate Ascii(s: string) {
    forall i :: 0 <= i < |s| ==> s[i] as int < 0x80
  }

  /** A digest in hexadecimal. */
  type Digest = s: string | s != "" && Ascii(s) witness "0"

  /** ``hmac.compare_digest``, which refuses text that is not ASCII. */
  function CompareDigest(presented: string, expected: Digest): Result<bool, TypeError> {
    if Ascii(presented) then Ok(presented == expected) else Err(NonAsciiSignature)
  }

  /**
   A governor: its signing key and the library functions it uses - HMAC-SHA256 and SHA-256 of
   a normal form's canonical text, ``isoformat``, ``str.lower``, ``str.strip`` and the joining of hits into
   a reason.
   */
  datatype Governor = Governor(
    signingKey: string,
    hmac: (Json, string) -> Digest,
    sha: Json -> string,
    iso: int -> string,
    lower: string -> string,
    strip: string -> string,
    commaJoin: seq<string> -> string,
    contractHash: string)
  {
    /** Different times are rendered differently. */
    ghost predicate Lawful() {
      forall a, b :: iso(a) == iso(b) ==> a == b
    }

    function Normalize(capability: string): string {
      lower(strip(capability))
    }

    function Classify(capability: string): CapabilityClass {
      var normalized := Normalize(capability);
      if normalized in READ_ONLY_CAPABILITIES then ReadOnly
      else if normalized in CONSEQUENTIAL_CAPABILITIES || normalized in SEVERE_CAPABILITIES then Consequential
      else Unknown
    }

    predicate IsSevere(capability: string) {
      Normalize(capability) in SEVERE_CAPABILITIES
    }

    function Sign(x: Signable): Digest {
      hmac(SignedJson(iso, x), signingKey)
    }

    function HashOf(c: IntentClaim): string {
      sha(IntentJson(c))
    }
  }

  /** ``intent_hash`` raises for parameters that canonical JSON cannot express, such as a set. */
  function ClaimOf(intent: Intent): Result<IntentClaim, TypeError> {
    match NormalizeEntries(intent.params)
    case Ok(params) => Ok(IntentClaim(intent.tool, intent.capability, intent.target, intent.scopeId, params))
    case Err(e) => Err(e)
  }

  function InjectionHits(g: Governor, intent: Intent): seq<string> {
    Hits(g.lower, INJECTION_PATTERNS, ScannedTexts(intent.text, intent.untrustedContext, DictValue(intent.params)))
  }

  // ---- the ordered decision procedure --------------------------------------------------------

  /** The branch of the procedure that decided. */
  datatype Branch =
    | PostureLocked | Quarantined | ReadOnlyAllowed | ExecutionAbsent | ShadowDenied
    | ApprovalAbsent | SignatureInvalid | TokenExpired | CapabilityMismatch | TargetPinned | IntentMismatch
    | Authorized

  function RuleName(b: Branch): string {
    match b
    case PostureLocked => "posture.locked"
    case Quarantined => "msf.injection.quarantined"
    case ReadOnlyAllowed => "msf.capability.read_only"
    case ExecutionAbsent => "msf.capability.execution_absent"
    case ShadowDenied => "msf.shadow.denied"
    case ApprovalAbsent => "msf.broker.approval_absent"
    case SignatureInvalid => "msf.broker.signature_invalid"
    case TokenExpired => "msf.broker.token_expired"
    case CapabilityMismatch => "msf.broker.capability_mismatch"
    case TargetPinned => "msf.broker.target_pinned"
    case IntentMismatch => "msf.broker.intent_mismatch"
    case Authorized => "msf.broker.authorized"
  }

  function ReasonFor(g: Governor, b: Branch, hits: seq<string>): string {
    match b
    case PostureLocked => "runtime locked"
    case Quarantined => "quarantined untrusted instruction: " + g.commaJoin(hits)
    case ReadOnlyAllowed => "read-only capability: security knowledge, not authority"
    case ExecutionAbsent => "execution authority absent under read-only firewall"
    case ShadowDenied => "shadow lane: high-impact action simulated, never executed"
    case ApprovalAbsent => "no signed human approval token presented"
    case SignatureInvalid => "capability token signature invalid"
    case TokenExpired => "capability token expired: authority is time-bound"
    case CapabilityMismatch => "token authorises a different capability class"
    case TargetPinned => "target not pinned to the approved lab asset"
    case IntentMismatch => "signed intent hash no longer matches the request"
    case Authorized => "bounded lab action authorised by capability token"
  }

  /** The signature is compared before the intent is hashed, so of two errors the comparison's is raised. */
  function BrokerBranch(g: Governor, intent: Intent, token: Option<CapabilityToken>, now: int):
    Result<Branch, TypeError>
  {
    if token.None? then Ok(ApprovalAbsent) else
    var t := token.value;
    if t.signature == "" then Ok(SignatureInvalid) else
    match CompareDigest(t.signature, g.Sign(OfToken(t.claim)))
    case Err(e) => Err(e)
    case Ok(same) =>
      if !same then Ok(SignatureInvalid)
      else if now >= t.claim.expiresAt then Ok(TokenExpired)
      else if t.claim.capability != intent.capability then Ok(CapabilityMismatch)
      else if t.claim.target != intent.target then Ok(TargetPinned)
      else
        match ClaimOf(intent)
        case Err(e) => Err(e)
        case Ok(claim) => if t.claim.intentHash != g.HashOf(claim) then Ok(IntentMismatch) else Ok(Authorized)
  }

  function BranchOf(g: Governor, intent: Intent, mode: GovernanceMode, posture: Posture,
                    token: Option<CapabilityToken>, now: int): Result<Branch, TypeError>
  {
    if posture == Locked then Ok(PostureLocked)
    else if InjectionHits(g, intent) != [] then Ok(Quarantined)
    else if g.Classify(intent.capability) == ReadOnly then Ok(ReadOnlyAllowed)
    else if mode == ReadOnlyFirewall then Ok(ExecutionAbsent)
    else if mode == Shadow then Ok(ShadowDenied)
    else BrokerBranch(g, intent, token, now)
  }

  function DecisionFor(b: Branch): Decision {
    if b == ReadOnlyAllowed || b == Authorized then Allow else Deny
  }

  /** The ``severe`` argument each branch passes on. */
  function SevereArgument(g: Governor, b: Branch, capability: string): bool {
    match b
    case PostureLocked => false
    case ReadOnlyAllowed => false
    case Authorized => false
    case Quarantined => true
    case SignatureInvalid => true
    case TargetPinned => true
    case IntentMismatch => true
    case _ => g.IsSevere(capability)
  }

  function Evaluate(g: Governor, intent: Intent, mode: GovernanceMode, environment: string, posture: Posture,
                    token: Option<CapabilityToken>, now: int, decisionId: string):
    Result<GovernanceOutcome, TypeError>
  {
    match BranchOf(g, intent, mode, posture, token, now)
    case Err(e) => Err(e)
    case Ok(branch) =>
      match ClaimOf(intent)
      case Err(e) => Err(e)
      case Ok(claim) => Ok(Finish(g, intent, g.HashOf(claim), environment, posture, branch, mode, now, decisionId))
  }

  function Finish(g: Governor, intent: Intent, intentHash: string, environment: string, posture: Posture,
                  branch: Branch, mode: GovernanceMode, now: int, decisionId: string): GovernanceOutcome
  {
    var decision := PolicyDecision(DecisionFor(branch), intent.actor, "mcp.metasploit." + intent.capability,
                                   intent.target, environment, posture,
                                   ReasonFor(g, branch, InjectionHits(g, intent)), RuleName(branch), now);
    GovernanceOutcome(decision, SignEvidence(g, intent, intentHash, decision, decisionId),
                      SevereArgument(g, branch, intent.capability) && decision.decision == Deny, mode == Shadow)
  }

  function SignEvidence(g: Governor, intent: Intent, intentHash: string, decision: PolicyDecision, decisionId: string):
    EvidenceEvent
  {
    var claim := EvidenceClaim(decisionId, intentHash, intent.tool, intent.capability, DecisionText(decision.decision),
                               intent.scopeId, g.contractHash, decision.matchedRule, g.iso(decision.timestamp));
    EvidenceEvent(claim, g.Sign(OfEvidence(claim)))
  }

  function VerifyEvidence(g: Governor, event: EvidenceEvent): Result<bool, TypeError> {
    if event.signature == "" then Ok(false) else CompareDigest(event.signature, g.Sign(OfEvidence(event.claim)))
  }

  /** The first and the last moment a ``datetime`` can name, in microseconds since 1970. */
  const EARLIEST := -62_135_596_800_000_000
  const LATEST := 253_402_300_799_999_999

  datatype MintError = Unhashable(cause: TypeError) | DateOverflow

  function MintToken(g: Governor, intent: Intent, approver: string, ttlSeconds: int, now: int, tokenId: string):
    Result<CapabilityToken, MintError>
  {
    var expiresAt := now + ttlSeconds * 1_000_000;
    match ClaimOf(intent)
    case Err(e) => Err(Unhashable(e))
    case Ok(c) =>
      if !(EARLIEST <= expiresAt <= LATEST) then Err(DateOverflow) else
      var claim := TokenClaim(tokenId, intent.capability, intent.target, intent.scopeId, g.HashOf(c), approver,
                              now, expiresAt);
      Ok(CapabilityToken(claim, g.Sign(OfToken(claim))))
  }

  // ---- when the governor allows --------------------------------------------------------------

  /** A phrase occurs in the text, the untrusted context or a string at any depth of the parameters. */
  ghost predicate Injected(g: Governor, intent: Intent) {
    InjectedBy(g.lower, INJECTION_PATTERNS, intent.text, intent.untrustedContext, DictValue(intent.params))
  }

  /** Such intents exist. */
  lemma QuotedPhraseIsInjected(g: Governor, intent: Intent)
    requires g.lower("ignore previous") == "ignore previous" && intent.text == Some("ignore previous")
    ensures Injected(g, intent)
  {
    var phrase := "ignore previous";
    assert phrase[0..] == phrase && INJECTION_PATTERNS[0] == phrase;
    assert Contains(phrase, phrase);
  }

  /** A live token of this governor for exactly this intent. */
  predicate TokenCovers(g: Governor, token: Option<CapabilityToken>, intent: Intent, intentHash: string, now: int) {
    && token.Some?
    && token.value.signature != "" && token.value.signature == g.Sign(OfToken(token.value.claim))
    && now < token.value.claim.expiresAt
    && token.value.claim.capability == intent.capability
    && token.value.claim.target == intent.target
    && token.value.claim.intentHash == intentHash
  }

  /** The broker lane is reached with a token whose signature cannot be compared. */
  ghost predicate Incomparable(g: Governor, intent: Intent, mode: GovernanceMode, posture: Posture,
                               token: Option<CapabilityToken>)
  {
    && posture != Locked && !Injected(g, intent) && g.Classify(intent.capability) != ReadOnly
    && mode == LabBroker && token.Some? && !Ascii(token.value.signature)
  }

  /**
   Exactly when the governor answers: when the parameters are JSON and it does not come to comparing a
   signature that is not ASCII. It then allows the intent iff the runtime is not locked, nothing is
   injected, and the capability is read-only or a token covers it in the broker lane.
   */
  lemma AllowsIff(g: Governor, intent: Intent, mode: GovernanceMode, environment: string, posture: Posture,
                  token: Option<CapabilityToken>, now: int, decisionId: string)
    ensures var r := Evaluate(g, intent, mode, environment, posture, token, now, decisionId);
            && (r.Ok? <==> NormalizeEntries(intent.params).Ok? && !Incomparable(g, intent, mode, posture, token))
            && (r.Err? ==> r == Err(if Incomparable(g, intent, mode, posture, token) then NonAsciiSignature
                                    else NormalizeEntries(intent.params).error))
            && (r.Ok? ==>
                  (r.value.decision.decision ==
                   if posture != Locked && !Injected(g, intent)
                      && (g.Classify(intent.capability) == ReadOnly
                          || (mode == LabBroker && TokenCovers(g, token, intent, g.HashOf(ClaimOf(intent).value), now)))
                   then Allow else Deny))
  {
    BranchExists(g, intent, mode, posture, token, now);
    if BranchOf(g, intent, mode, posture, token, now).Ok? && ClaimOf(intent).Ok? {
      BranchAllowsIff(g, intent, mode, posture, token, now);
    }
  }

  lemma BranchExists(g: Governor, intent: Intent, mode: GovernanceMode, posture: Posture,
                     token: Option<CapabilityToken>, now: int)
    ensures var b := BranchOf(g, intent, mode, posture, token, now);
            && (Incomparable(g, intent, mode, posture, token) ==> b == Err(NonAsciiSignature))
            && (b.Err? && !Incomparable(g, intent, mode, posture, token) ==>
                  ClaimOf(intent).Err? && b == Err(ClaimOf(intent).error))
  {
    HitsIffInjected(g.lower, INJECTION_PATTERNS, intent.text, intent.untrustedContext, DictValue(intent.params));
  }

  lemma BranchAllowsIff(g: Governor, intent: Intent, mode: GovernanceMode, posture: Posture,
                        token: Option<CapabilityToken>, now: int)
    requires ClaimOf(intent).Ok? && BranchOf(g, intent, mode, posture, token, now).Ok?
    ensures DecisionFor(BranchOf(g, intent, mode, posture, token, now).value) ==
            if posture != Locked && !Injected(g, intent)
               && (g.Classify(intent.capability) == ReadOnly
                   || (mode == LabBroker && TokenCovers(g, token, intent, g.HashOf(ClaimOf(intent).value), now)))
            then Allow else Deny
  {
    HitsIffInjected(g.lower, INJECTION_PATTERNS, intent.text, intent.untrustedContext, DictValue(intent.params));
  }

  /**
   A token that looks like an attack: not signed by this governor, or live and for this capability but
   pinned to another target or intent.
   */
  predicate TokenMisused(g: Governor, token: Option<CapabilityToken>, intent: Intent, intentHash: string, now: int) {
    && token.Some?
    && var t := token.value;
       var authentic := t.signature != "" && t.signature == g.Sign(OfToken(t.claim));
       || !authentic
       || (now < t.claim.expiresAt && t.claim.capability == intent.capability
           && (t.claim.target != intent.target || t.claim.intentHash != intentHash))
  }

  lemma BranchSevereIff(g: Governor, intent: Intent, mode: GovernanceMode, posture: Posture,
                        token: Option<CapabilityToken>, now: int)
    requires ClaimOf(intent).Ok? && BranchOf(g, intent, mode, posture, token, now).Ok?
    ensures var b := BranchOf(g, intent, mode, posture, token, now).value;
            SevereArgument(g, b, intent.capability) && DecisionFor(b) == Deny <==>
              && DecisionFor(b) == Deny && posture != Locked
              && (Injected(g, intent) || g.IsSevere(intent.capability)
                  || (mode == LabBroker && TokenMisused(g, token, intent, g.HashOf(ClaimOf(intent).value), now)))
  {
    HitsIffInjected(g.lower, INJECTION_PATTERNS, intent.text, intent.untrustedContext, DictValue(intent.params));
  }

  /**
   An outcome - there is none when the governor raises - is severe iff it is a denial, not for the lock,
   of something injected, of a severe capability, or of a misused token in the broker lane.
   */
  lemma SevereIff(g: Governor, intent: Intent, mode: GovernanceMode, environment: string, posture: Posture,
                  token: Option<CapabilityToken>, now: int, decisionId: string)
    ensures var r := Evaluate(g, intent, mode, environment, posture, token, now, decisionId);
            r.Ok? ==>
              (r.value.severe <==>
                && r.value.decision.decision == Deny && posture != Locked
                && (Injected(g, intent) || g.IsSevere(intent.capability)
                    || (mode == LabBroker && TokenMisused(g, token, intent, g.HashOf(ClaimOf(intent).value), now))))
  {
    if BranchOf(g, intent, mode, posture, token, now).Ok? && ClaimOf(intent).Ok? {
      BranchSevereIff(g, intent, mode, posture, token, now);
    }
  }

  lemma SignedEvidenceSays(g: Governor, intent: Intent, intentHash: string, d: PolicyDecision, decisionId: string)
    ensures var e := SignEvidence(g, intent, intentHash, d, decisionId);
            && VerifyEvidence(g, e) == Ok(true)
            && ParseDecision(e.claim.policyDecision) == Some(d.decision)
            && e.claim.matchedRule == d.matchedRule && e.claim.timestamp == g.iso(d.timestamp)
            && e.claim.intentHash == intentHash && e.claim.tool == intent.tool
            && e.claim.requestedCapability == intent.capability && e.claim.scopeId == intent.scopeId
            && e.claim.contractHash == g.contractHash && e.claim.decisionId == decisionId
  {
    NamesReadBack(d.decision, d.posture, DecisionText(d.decision));
  }

  lemma OutcomeIsSigned(g: Governor, intent: Intent, mode: GovernanceMode, environment: string, posture: Posture,
                        token: Option<CapabilityToken>, now: int, decisionId: string)
    ensures var r := Evaluate(g, intent, mode, environment, posture, token, now, decisionId);
            r.Ok? ==>
              && ClaimOf(intent).Ok?
              && r.value.evidence ==
                 SignEvidence(g, intent, g.HashOf(ClaimOf(intent).value), r.value.decision, decisionId)
  {
  }

  /** Every outcome carries evidence that verifies and says what was decided about which intent, and why. */
  lemma EvidenceVerifies(g: Governor, intent: Intent, mode: GovernanceMode, environment: string, posture: Posture,
                         token: Option<CapabilityToken>, now: int, decisionId: string)
    ensures var r := Evaluate(g, intent, mode, environment, posture, token, now, decisionId);
            r.Ok? ==>
              var e := r.value.evidence;
              && VerifyEvidence(g, e) == Ok(true)
              && ParseDecision(e.claim.policyDecision) == Some(r.value.decision.decision)
              && e.claim.matchedRule == r.value.decision.matchedRule
              && e.claim.timestamp == g.iso(r.value.decision.timestamp)
              && e.claim.intentHash == g.HashOf(ClaimOf(intent).value)
              && e.claim.tool == intent.tool && e.claim.requestedCapability == intent.capability
              && e.claim.scopeId == intent.scopeId && e.claim.contractHash == g.contractHash
              && e.claim.decisionId == decisionId
  {
    OutcomeIsSigned(g, intent, mode, environment, posture, token, now, decisionId);
    var r := Evaluate(g, intent, mode, environment, posture, token, now, decisionId);
    if r.Ok? { SignedEvidenceSays(g, intent, g.HashOf(ClaimOf(intent).value), r.value.decision, decisionId); }
  }

  /** An outcome's decision is about the intent, where and when it was put. */
  lemma OutcomeNamesIntent(g: Governor, intent: Intent, mode: GovernanceMode, environment: string, posture: Posture,
                           token: Option<CapabilityToken>, now: int, decisionId: string)
    ensures var r := Evaluate(g, intent, mode, environment, posture, token, now, decisionId);
            r.Ok? ==>
              var d := r.value.decision;
              && d.actor == intent.actor && d.target == intent.target
              && d.action == "mcp.metasploit." + intent.capability
              && d.environment == environment && d.posture == posture && d.timestamp == now
              && r.value.simulated == (mode == Shadow)
  {
  }

  lemma TellingNames(b: Branch)
    ensures RuleName(b) == "posture.locked" <==> b == PostureLocked
    ensures RuleName(b) == "msf.injection.quarantined" <==> b == Quarantined
    ensures RuleName(b) == "msf.capability.read_only" <==> b == ReadOnlyAllowed
    ensures RuleName(b) == "msf.capability.execution_absent" <==> b == ExecutionAbsent
    ensures RuleName(b) == "msf.shadow.denied" <==> b == ShadowDenied
  {
  }

  lemma TellingBrokerNames(b: Branch)
    ensures RuleName(b) == "msf.broker.approval_absent" <==> b == ApprovalAbsent
    ensures RuleName(b) == "msf.broker.signature_invalid" <==> b == SignatureInvalid
    ensures RuleName(b) == "msf.broker.token_expired" <==> b == TokenExpired
  {
  }

  lemma TellingTokenNames(b: Branch)
    ensures RuleName(b) == "msf.broker.capability_mismatch" <==> b == CapabilityMismatch
    ensures RuleName(b) == "msf.broker.target_pinned" <==> b == TargetPinned
    ensures RuleName(b) == "msf.broker.intent_mismatch" <==> b == IntentMismatch
    ensures RuleName(b) == "msf.broker.authorized" <==> b == Authorized
  {
  }

  /** The broker lane is where the decision falls. */
  ghost predicate Reached(g: Governor, intent: Intent, mode: GovernanceMode, posture: Posture) {
    posture != Locked && !Injected(g, intent) && g.Classify(intent.capability) != ReadOnly && mode == LabBroker
  }

  predicate Authentic(g: Governor, token: CapabilityToken) {
    token.signature == g.Sign(OfToken(token.claim))
  }

  lemma BranchTells(g: Governor, intent: Intent, mode: GovernanceMode, posture: Posture,
                    token: Option<CapabilityToken>, now: int)
    requires ClaimOf(intent).Ok? && BranchOf(g, intent, mode, posture, token, now).Ok?
    ensures var b := BranchOf(g, intent, mode, posture, token, now).value;
            var open := posture != Locked && !Injected(g, intent) && g.Classify(intent.capability) != ReadOnly;
            && (b == PostureLocked <==> posture == Locked)
            && (b == Quarantined <==> posture != Locked && Injected(g, intent))
            && (b == ReadOnlyAllowed <==> DecisionFor(b) == Allow && g.Classify(intent.capability) == ReadOnly)
            && (b == ExecutionAbsent <==> open && mode == ReadOnlyFirewall)
            && (b == ShadowDenied <==> open && mode == Shadow)
            && (b == Authorized <==> DecisionFor(b) == Allow && g.Classify(intent.capability) != ReadOnly)
  {
    HitsIffInjected(g.lower, INJECTION_PATTERNS, intent.text, intent.untrustedContext, DictValue(intent.params));
  }

  lemma BrokerBranchTells(g: Governor, intent: Intent, mode: GovernanceMode, posture: Posture,
                          token: Option<CapabilityToken>, now: int)
    requires ClaimOf(intent).Ok? && BranchOf(g, intent, mode, posture, token, now).Ok?
    ensures var b, reached := BranchOf(g, intent, mode, posture, token, now).value, Reached(g, intent, mode, posture);
            && (b == ApprovalAbsent <==> reached && token == None)
            && (b == SignatureInvalid <==> reached && token.Some? && !Authentic(g, token.value))
            && (b == TokenExpired <==>
                  reached && token.Some? && Authentic(g, token.value) && now >= token.value.claim.expiresAt)
            && (b == CapabilityMismatch ==> reached && token.Some? && token.value.claim.capability != intent.capability)
            && (b == TargetPinned ==> reached && token.Some? && token.value.claim.target != intent.target)
            && (b == IntentMismatch ==>
                  reached && token.Some? && token.value.claim.intentHash != g.HashOf(ClaimOf(intent).value))
  {
    HitsIffInjected(g.lower, INJECTION_PATTERNS, intent.text, intent.untrustedContext, DictValue(intent.params));
  }

  /** What the name of the rule tells a reader of the log: above all, that the broker granted authority. */
  lemma RuleTells(g: Governor, intent: Intent, mode: GovernanceMode, environment: string, posture: Posture,
                  token: Option<CapabilityToken>, now: int, decisionId: string)
    ensures var r := Evaluate(g, intent, mode, environment, posture, token, now, decisionId);
            r.Ok? ==>
              var rule, allowed := r.value.decision.matchedRule, r.value.decision.decision == Allow;
              var readOnly := g.Classify(intent.capability) == ReadOnly;
              var open := posture != Locked && !Injected(g, intent) && !readOnly;
              && (rule == "posture.locked" <==> posture == Locked)
              && (rule == "msf.injection.quarantined" <==> posture != Locked && Injected(g, intent))
              && (rule == "msf.capability.read_only" <==> allowed && readOnly)
              && (rule == "msf.capability.execution_absent" <==> open && mode == ReadOnlyFirewall)
              && (rule == "msf.shadow.denied" <==> open && mode == Shadow)
              && (rule == "msf.broker.authorized" <==> allowed && !readOnly)
  {
    if BranchOf(g, intent, mode, posture, token, now).Ok? && ClaimOf(intent).Ok? {
      TellingNames(BranchOf(g, intent, mode, posture, token, now).value);
      TellingTokenNames(BranchOf(g, intent, mode, posture, token, now).value);
      BranchTells(g, intent, mode, posture, token, now);
    }
  }

  /** And in the broker lane, what was wrong with the token. */
  lemma BrokerRuleTells(g: Governor, intent: Intent, mode: GovernanceMode, environment: string, posture: Posture,
                        token: Option<CapabilityToken>, now: int, decisionId: string)
    ensures var r := Evaluate(g, intent, mode, environment, posture, token, now, decisionId);
            r.Ok? ==>
              var rule, reached := r.value.decision.matchedRule, Reached(g, intent, mode, posture);
              && (rule == "msf.broker.approval_absent" <==> reached && token == None)
              && (rule == "msf.broker.signature_invalid" <==> reached && token.Some? && !Authentic(g, token.value))
              && (rule == "msf.broker.token_expired" <==>
                    reached && token.Some? && Authentic(g, token.value) && now >= token.value.claim.expiresAt)
              && (rule == "msf.broker.capability_mismatch" ==>
                    reached && token.Some? && token.value.claim.capability != intent.capability)
              && (rule == "msf.broker.target_pinned" ==>
                    reached && token.Some? && token.value.claim.target != intent.target)
              && (rule == "msf.broker.intent_mismatch" ==>
                    reached && token.Some? && token.value.claim.intentHash != g.HashOf(ClaimOf(intent).value))
  {
    if BranchOf(g, intent, mode, posture, token, now).Ok? && ClaimOf(intent).Ok? {
      TellingBrokerNames(BranchOf(g, intent, mode, posture, token, now).value);
      TellingTokenNames(BranchOf(g, intent, mode, posture, token, now).value);
      BrokerBranchTells(g, intent, mode, posture, token, now);
    }
  }

  /** A capability is judged by its name in lower case without surrounding space. */
  lemma CapabilityIsNormalized(g: Governor, capability: string)
    ensures g.Classify(capability) == ReadOnly <==> g.lower(g.strip(capability)) in READ_ONLY_CAPABILITIES
    ensures g.IsSevere(capability) <==> g.lower(g.strip(capability)) in SEVERE_CAPABILITIES
  {
  }

  /** No capability is both harmless and severe. */
  lemma SevereIsNotReadOnly(g: Governor, capability: string)
    requires g.IsSevere(capability)
    ensures g.Classify(capability) == Consequential
  {
  }

  /** A token says what it is for: the intent's capability, target and scope, the intent's hash, and who approved. */
  lemma MintedTokenSays(g: Governor, intent: Intent, approver: string, ttlSeconds: int, now: int, tokenId: string)
    ensures var r := MintToken(g, intent, approver, ttlSeconds, now, tokenId);
            r.Ok? ==>
              var c := r.value.claim;
              && c.tokenId == tokenId && c.approver == approver
              && c.capability == intent.capability && c.target == intent.target && c.scopeId == intent.scopeId
              && ClaimOf(intent).Ok? && c.intentHash == g.HashOf(ClaimOf(intent).value)
              && c.issuedAt == now && c.expiresAt == now + ttlSeconds * 1_000_000
              && CompareDigest(r.value.signature, g.Sign(OfToken(c))) == Ok(true)
  {
  }

  // ---- what hashes and signatures cover ------------------------------------------------------

  lemma KeysAreDistinct()
    ensures Distinct(INTENT_KEYS) && Distinct(TOKEN_KEYS) && Distinct(EVIDENCE_KEYS)
    ensures "params" !in INTENT_KEYS && "token_id" !in EVIDENCE_KEYS && "token_id" == TOKEN_KEYS[0]
  {
    IntentKeysAreDistinct();
    TokenKeysAreDistinct();
    EvidenceKeysAreDistinct();
  }

  lemma IntentKeysAreDistinct()
    ensures Distinct(INTENT_KEYS) && "params" !in INTENT_KEYS
  {
  }

  lemma TokenKeysAreDistinct()
    ensures Distinct(TOKEN_KEYS) && "token_id" == TOKEN_KEYS[0]
  {
  }

  lemma EvidenceKeysAreDistinct()
    ensures Distinct(EVIDENCE_KEYS) && "token_id" !in EVIDENCE_KEYS
  {
  }

  /** Tool, capability, target, scope and parameters can all be told from what is hashed. */
  lemma IntentJsonIsInjective(x: IntentClaim, y: IntentClaim)
    requires IntentJson(x) == IntentJson(y)
    ensures x == y
  {
    IntentKeysAreDistinct();
    var a, b := [x.tool, x.capability, x.target, x.scopeId], [y.tool, y.capability, y.target, y.scopeId];
    var p, q := Object(INTENT_KEYS, a), Object(INTENT_KEYS, b);
    ObjectHasOnly(INTENT_KEYS, a, "params");
    ObjectHasOnly(INTENT_KEYS, b, "params");
    assert IntentJson(x).fields["params"] == IntentJson(y).fields["params"];
    assert p == IntentJson(x).fields - {"params"} && q == IntentJson(y).fields - {"params"};
    ObjectIsInjective(INTENT_KEYS, a, b);
    assert a[0] == b[0] && a[1] == b[1] && a[2] == b[2] && a[3] == b[3];
  }

  lemma TokenTextsTell(g: Governor, x: TokenClaim, y: TokenClaim)
    requires g.Lawful() && TokenTexts(g.iso, x) == TokenTexts(g.iso, y)
    ensures x == y
  {
    var a, b := TokenTexts(g.iso, x), TokenTexts(g.iso, y);
    assert a[0] == b[0] && a[1] == b[1] && a[2] == b[2] && a[3] == b[3];
    assert a[4] == b[4] && a[5] == b[5] && a[6] == b[6] && a[7] == b[7];
  }

  lemma EvidenceTextsTell(x: EvidenceClaim, y: EvidenceClaim)
    requires EvidenceTexts(x) == EvidenceTexts(y)
    ensures x == y
  {
    var a, b := EvidenceTexts(x), EvidenceTexts(y);
    assert a[0] == b[0] && a[1] == b[1] && a[2] == b[2] && a[3] == b[3] && a[4] == b[4];
    assert a[5] == b[5] && a[6] == b[6] && a[7] == b[7] && a[8] == b[8];
  }

  lemma TokenIsNotEvidence(iso: int -> string, x: TokenClaim, y: EvidenceClaim)
    ensures SignedJson(iso, OfToken(x)) != SignedJson(iso, OfEvidence(y))
  {
    KeysAreDistinct();
    ObjectHolds(TOKEN_KEYS, TokenTexts(iso, x), 0);
    ObjectHasOnly(EVIDENCE_KEYS, EvidenceTexts(y), "token_id");
  }

  /** So can everything a token or an evidence event says, and which of the two it is. */
  lemma SignedJsonIsInjective(g: Governor, x: Signable, y: Signable)
    requires g.Lawful() && SignedJson(g.iso, x) == SignedJson(g.iso, y)
    ensures x == y
  {
    match (x, y)
    case (OfToken(a), OfToken(b)) =>
      TokenKeysAreDistinct();
      ObjectIsInjective(TOKEN_KEYS, TokenTexts(g.iso, a), TokenTexts(g.iso, b));
      TokenTextsTell(g, a, b);
    case (OfEvidence(a), OfEvidence(b)) =>
      EvidenceKeysAreDistinct();
      ObjectIsInjective(EVIDENCE_KEYS, EvidenceTexts(a), EvidenceTexts(b));
      EvidenceTextsTell(a, b);
    case (OfToken(a), OfEvidence(b)) => TokenIsNotEvidence(g.iso, a, b);
    case (OfEvidence(a), OfToken(b)) => TokenIsNotEvidence(g.iso, b, a);
  }

  /** A set among the parameters is scanned, and then no lane can judge the intent, whatever else it says. */
  lemma SetParameterRaises(g: Governor, intent: Intent, mode: GovernanceMode, environment: string, posture: Posture,
                           token: Option<CapabilityToken>, now: int, decisionId: string)
    requires intent.params == [Entry("hosts", SetValue([StrValue("10.0.0.5")]))]
    ensures Evaluate(g, intent, mode, environment, posture, token, now, decisionId) ==
            Err(if Incomparable(g, intent, mode, posture, token) then NonAsciiSignature else UnsupportedType("set"))
    ensures "10.0.0.5" in Strings(DictValue(intent.params))
  {
    var hosts := SetValue([StrValue("10.0.0.5")]);
    assert [Entry("hosts", hosts)][..0] == [] && [StrValue("10.0.0.5")][..0] == [];
    assert NormalizeEntries(intent.params) == Err(UnsupportedType("set"));
    assert Strings(hosts) == StringsOfItems([StrValue("10.0.0.5")]) == [] + ["10.0.0.5"];
    assert Strings(DictValue(intent.params)) == StringsOfEntries([]) + Strings(hosts);
    AllowsIff(g, intent, mode, environment, posture, token, now, decisionId);
  }

  lemma NothingToScan(g: Governor, intent: Intent)
    requires intent.text == None && intent.untrustedContext == None && intent.params == []
    ensures !Injected(g, intent)
  {
    forall s ensures !OccursIn(s, DictValue(intent.params)) {
      StringsAreReachable(DictValue(intent.params), s);
      assert Strings(DictValue(intent.params)) == [];
    }
  }

  lemma ModuleRunIsNotReadOnly(g: Governor)
    requires g.Normalize("module.run") == "module.run"
    ensures g.Classify("module.run") == Consequential
  {
    assert |"module.run"| == 10 && "module.run"[0] == 'm';
    assert forall name :: name in READ_ONLY_CAPABILITIES ==> |name| != 10 || name[0] != 'm';
  }

  /** A token signed with one accented letter is not denied: the governor raises. */
  lemma AccentedSignatureRaises(g: Governor, intent: Intent, environment: string, posture: Posture,
                                token: CapabilityToken, now: int, decisionId: string)
    requires intent.text == None && intent.untrustedContext == None && intent.params == []
    requires intent.capability == "module.run" && g.Normalize("module.run") == "module.run" && posture != Locked
    requires token.signature == "\U{E9}"
    ensures Evaluate(g, intent, LabBroker, environment, posture, Some(token), now, decisionId) == Err(NonAsciiSignature)
  {
    NothingToScan(g, intent);
    ModuleRunIsNotReadOnly(g);
    assert token.signature[0] as int == 0xE9;
    AllowsIff(g, intent, LabBroker, environment, posture, Some(token), now, decisionId);
  }

  /** Any wrong signature that is ASCII is denied instead, and severely. */
  lemma WrongSignatureIsSevere(g: Governor, intent: Intent, environment: string, posture: Posture,
                               token: CapabilityToken, now: int, decisionId: string)
    requires NormalizeEntries(intent.params).Ok? && !Injected(g, intent) && posture != Locked
    requires g.Classify(intent.capability) != ReadOnly
    requires Ascii(token.signature) && token.signature != g.Sign(OfToken(token.claim))
    ensures var r := Evaluate(g, intent, LabBroker, environment, posture, Some(token), now, decisionId);
            r.Ok? && r.value.severe && r.value.decision.decision == Deny
  {
    AllowsIff(g, intent, LabBroker, environment, posture, Some(token), now, decisionId);
    SevereIff(g, intent, LabBroker, environment, posture, Some(token), now, decisionId);
  }

  /** Evidence can be checked iff its signature is ASCII, and then stands iff the governor signed it so. */
  lemma VerifiesIff(g: Governor, event: EvidenceEvent)
    ensures VerifyEvidence(g, event).Ok? <==> Ascii(event.signature)
    ensures VerifyEvidence(g, event) == Ok(true) <==> event.signature == g.Sign(OfEvidence(event.claim))
  {
  }
}
