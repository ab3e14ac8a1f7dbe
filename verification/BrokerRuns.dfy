/** Authority over whole runs of the token broker (src/rif_runtime/mcp/metasploit.py). */
module BrokerRuns {
  import opened Wrappers
  import opened PythonValues
  import opened Schemas
  import opened Metasploit

  /**
   What one governor is asked to do. Intents, tokens and evidence come from anywhere: what is presented
   or checked is any value at all, and the parameters of an intent need not even be JSON.
   */
  datatype Event =
    | Mint(intent: Intent, approver: string, ttlSeconds: int, now: int, tokenId: string)
    | Present(intent: Intent, mode: GovernanceMode, environment: string, posture: Posture,
              token: Option<CapabilityToken>, now: int, decisionId: string)
    | Check(evidence: EvidenceEvent)

  function OutcomeOf(g: Governor, e: Event): Result<GovernanceOutcome, TypeError>
    requires e.Present?
  {
    Evaluate(g, e.intent, e.mode, e.environment, e.posture, e.token, e.now, e.decisionId)
  }

  /** What the event makes the governor sign, if it does not raise. */
  function SignedBy(g: Governor, e: Event): Option<Signable> {
    match e
    case Mint(intent, approver, ttlSeconds, now, tokenId) =>
      (match MintToken(g, intent, approver, ttlSeconds, now, tokenId)
       case Ok(token) => Some(OfToken(token.claim))
       case Err(_) => None)
    case Present(_, _, _, _, _, _, _) =>
      (match OutcomeOf(g, e)
       case Ok(outcome) => Some(OfEvidence(outcome.evidence.claim))
       case Err(_) => None)
    case Check(_) => None
  }

  /** What the event shows the governor under a valid signature, a token or evidence. */
  function Claimed(g: Governor, e: Event): Option<Signable> {
    match e
    case Mint(_, _, _, _, _) => None
    case Present(_, _, _, _, token, _, _) =>
      if token.Some? && token.value.signature == g.Sign(OfToken(token.value.claim))
      then Some(OfToken(token.value.claim)) else None
    case Check(evidence) => if VerifyEvidence(g, evidence) == Ok(true) then Some(OfEvidence(evidence.claim)) else None
  }

  /**
   Nobody but the governor can sign: a valid signature shown to it is one that it put on something - a
   token or an evidence event - earlier in the run.
   */
  ghost predicate Unforgeable(g: Governor, run: seq<Event>) {
    forall i :: 0 <= i < |run| && Claimed(g, run[i]).Some? ==>
      exists k :: 0 <= k < i && SignedBy(g, run[k]).Some?
                  && g.Sign(SignedBy(g, run[k]).value) == g.Sign(Claimed(g, run[i]).value)
  }

  /**
   HMAC and SHA-256 do not collide on what is signed, shown and hashed in the run: the dictionaries, not
   what they stand for.
   */
  ghost predicate CollisionFree(g: Governor, run: seq<Event>) {
    && (forall i, k :: 0 <= i < |run| && 0 <= k < |run| && Claimed(g, run[i]).Some? && SignedBy(g, run[k]).Some?
          && g.Sign(Claimed(g, run[i]).value) == g.Sign(SignedBy(g, run[k]).value)
          ==> SignedJson(g.iso, Claimed(g, run[i]).value) == SignedJson(g.iso, SignedBy(g, run[k]).value))
    && (forall i, k :: 0 <= i < |run| && 0 <= k < |run| && !run[i].Check? && !run[k].Check?
          && ClaimOf(run[i].intent).Ok? && ClaimOf(run[k].intent).Ok?
          && g.HashOf(ClaimOf(run[i].intent).value) == g.HashOf(ClaimOf(run[k].intent).value)
          ==> IntentJson(ClaimOf(run[i].intent).value) == IntentJson(ClaimOf(run[k].intent).value))
  }

  lemma MintedTokenIsClaimed(g: Governor, mint: Event, present: Event)
    requires mint.Mint? && present.Present?
    requires var token := MintToken(g, mint.intent, mint.approver, mint.ttlSeconds, mint.now, mint.tokenId);
             token.Ok? && present.token == Some(token.value)
    ensures Claimed(g, mint) == None && Claimed(g, present).Some? && SignedBy(g, mint) == Claimed(g, present)
  {
  }

  /** What the two ask is what honest use gives: a token is minted and presented for its own intent. */
  lemma HonestRunQualifies(g: Governor, mint: Event, present: Event)
    requires mint.Mint? && present.Present? && present.intent == mint.intent
    requires var token := MintToken(g, mint.intent, mint.approver, mint.ttlSeconds, mint.now, mint.tokenId);
             token.Ok? && present.token == Some(token.value)
    requires SignedBy(g, present).Some? ==> g.Sign(SignedBy(g, present).value) != g.Sign(SignedBy(g, mint).value)
    ensures Unforgeable(g, [mint, present]) && CollisionFree(g, [mint, present])
  {
    MintedTokenIsClaimed(g, mint, present);
    var run := [mint, present];
    assert SignedBy(g, run[0]) == Claimed(g, run[1]);
  }

  /** The event is allowed though its capability is not read-only: the broker lane granted it. */
  predicate Granted(g: Governor, e: Event) {
    && e.Present? && OutcomeOf(g, e).Ok?
    && OutcomeOf(g, e).value.decision.decision == Allow
    && g.Classify(e.intent.capability) != ReadOnly
  }

  /** What an approval binds: everything about an intent but its actor, its text and its context. */
  predicate SameIntent(a: Intent, b: Intent) {
    && a.tool == b.tool && a.capability == b.capability && a.target == b.target && a.scopeId == b.scopeId
    && NormalizeEntries(a.params) == NormalizeEntries(b.params)
  }

  lemma GrantNeedsToken(g: Governor, e: Event)
    requires Granted(g, e)
    ensures ClaimOf(e.intent).Ok? && e.mode == LabBroker && e.posture != Locked
    ensures TokenCovers(g, e.token, e.intent, g.HashOf(ClaimOf(e.intent).value), e.now)
    ensures Claimed(g, e) == Some(OfToken(e.token.value.claim))
  {
    AllowsIff(g, e.intent, e.mode, e.environment, e.posture, e.token, e.now, e.decisionId);
  }

  lemma MintSigns(g: Governor, e: Event)
    requires e.Mint? && SignedBy(g, e).Some?
    ensures ClaimOf(e.intent).Ok?
    ensures SignedBy(g, e).value.OfToken?
    ensures SignedBy(g, e).value.token.intentHash == g.HashOf(ClaimOf(e.intent).value)
    ensures SignedBy(g, e).value.token.expiresAt == e.now + e.ttlSeconds * 1_000_000
  {
  }

  /** Whatever is shown under a valid signature, the governor signed earlier in the run, and as that. */
  lemma ClaimedWasSigned(g: Governor, run: seq<Event>, i: nat) returns (k: nat)
    requires g.Lawful() && Unforgeable(g, run) && CollisionFree(g, run)
    requires i < |run| && Claimed(g, run[i]).Some?
    ensures k < i && SignedBy(g, run[k]) == Claimed(g, run[i])
  {
    k :| 0 <= k < i && SignedBy(g, run[k]).Some?
         && g.Sign(SignedBy(g, run[k]).value) == g.Sign(Claimed(g, run[i]).value);
    SignedJsonIsInjective(g, SignedBy(g, run[k]).value, Claimed(g, run[i]).value);
  }

  /** A valid token presented in the run carries a claim that a mint before it signed. */
  lemma ValidTokenWasMinted(g: Governor, run: seq<Event>, i: nat) returns (k: nat)
    requires g.Lawful() && Unforgeable(g, run) && CollisionFree(g, run)
    requires i < |run| && run[i].Present? && Claimed(g, run[i]).Some?
    ensures k < i && run[k].Mint? && SignedBy(g, run[k]) == Some(OfToken(run[i].token.value.claim))
  {
    k := ClaimedWasSigned(g, run, i);
  }

  /**
   Evidence that verifies is evidence the governor issued: an earlier event of the run was decided with
   exactly this decision id, decision, rule, scope, time and intent. Altering any of them, or passing a
   token's signature off as evidence, is noticed.
   */
  lemma VerifiedEvidenceWasIssued(g: Governor, run: seq<Event>, i: nat) returns (k: nat)
    requires g.Lawful() && Unforgeable(g, run) && CollisionFree(g, run)
    requires i < |run| && run[i].Check? && VerifyEvidence(g, run[i].evidence) == Ok(true)
    ensures k < i && run[k].Present? && OutcomeOf(g, run[k]).Ok?
    ensures OutcomeOf(g, run[k]).value.evidence == run[i].evidence
  {
    k := ClaimedWasSigned(g, run, i);
  }

  /**
   Every grant in every run goes back to an earlier mint, whose intent had the same tool, capability,
   target and scope and the same parameters in normal form, and whose time to live has not elapsed.
   Evidence is signed with the same key and still cannot stand in for a token.
   */
  lemma GrantFollowsMint(g: Governor, run: seq<Event>, i: nat) returns (k: nat)
    requires g.Lawful() && Unforgeable(g, run) && CollisionFree(g, run)
    requires i < |run| && Granted(g, run[i])
    ensures k < i && run[k].Mint?
    ensures SameIntent(run[k].intent, run[i].intent)
    ensures run[i].now < run[k].now + run[k].ttlSeconds * 1_000_000
  {
    GrantNeedsToken(g, run[i]);
    k := ValidTokenWasMinted(g, run, i);
    MintSigns(g, run[k]);
    IntentJsonIsInjective(ClaimOf(run[k].intent).value, ClaimOf(run[i].intent).value);
  }

  /**
   A token is refused for any other intent: if tool, capability, target, scope or parameters differ from
   those it was minted for, the broker lane does not grant it.
   */
  lemma OtherIntentIsRefused(g: Governor, minted: Intent, approver: string, ttlSeconds: int, mintedAt: int,
                             tokenId: string, intent: Intent, environment: string, posture: Posture, now: int,
                             decisionId: string)
    requires MintToken(g, minted, approver, ttlSeconds, mintedAt, tokenId).Ok? && !SameIntent(minted, intent)
    requires ClaimOf(minted).Ok? && ClaimOf(intent).Ok?
             && g.HashOf(ClaimOf(minted).value) == g.HashOf(ClaimOf(intent).value) ==>
             IntentJson(ClaimOf(minted).value) == IntentJson(ClaimOf(intent).value)
    ensures var token := MintToken(g, minted, approver, ttlSeconds, mintedAt, tokenId).value;
            !Granted(g, Present(intent, LabBroker, environment, posture, Some(token), now, decisionId))
  {
    var token := MintToken(g, minted, approver, ttlSeconds, mintedAt, tokenId).value;
    var e := Present(intent, LabBroker, environment, posture, Some(token), now, decisionId);
    if Granted(g, e) {
      GrantNeedsToken(g, e);
      IntentJsonIsInjective(ClaimOf(minted).value, ClaimOf(intent).value);
    }
  }

  /**
   In the broker lane, a minted token grants the intent it was minted for exactly until it expires; and
   one can be minted for every lifetime whose end a ``datetime`` can name.
   */
  lemma FreshTokenGrantsUntilExpiry(g: Governor, intent: Intent, approver: string, ttlSeconds: int, mintedAt: int,
                                    tokenId: string, environment: string, posture: Posture, now: int,
                                    decisionId: string)
    requires NormalizeEntries(intent.params).Ok?
    requires posture != Locked && !Injected(g, intent) && g.Classify(intent.capability) != ReadOnly
    ensures var token := MintToken(g, intent, approver, ttlSeconds, mintedAt, tokenId);
            && (token.Ok? <==> EARLIEST <= mintedAt + ttlSeconds * 1_000_000 <= LATEST)
            && (token.Ok? ==>
                  (Granted(g, Present(intent, LabBroker, environment, posture, Some(token.value), now, decisionId)) <==>
                   now < mintedAt + ttlSeconds * 1_000_000))
  {
    var token := MintToken(g, intent, approver, ttlSeconds, mintedAt, tokenId);
    if token.Ok? { AllowsIff(g, intent, LabBroker, environment, posture, Some(token.value), now, decisionId); }
  }
}
