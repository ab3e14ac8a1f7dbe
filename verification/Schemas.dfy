/** Requests, decisions and profiles (src/rif_runtime/schemas.py). Times are integer microseconds. */
module Schemas {
  import opened Wrappers

  datatype Decision = Allow | Deny | Review

  datatype Posture = Normal | Elevated | Restricted | Locked

  datatype PolicyRequest = PolicyRequest(actor: string, action: string, target: string)

  datatype PolicyDecision = PolicyDecision(
    decision: Decision,
    actor: string,
    action: string,
    target: string,
    environment: string,
    posture: Posture,
    reason: string,
    matchedRule: string,
    timestamp: int)

  datatype EnvironmentProfile = EnvironmentProfile(
    networkingType: string,
    allowMcpServerNetworkAccess: bool,
    allowPackageManagerNetworkAccess: bool,
    allowedHosts: seq<string>)

  // ---- enumerations as text ------------------------------------------------------------------

  function DecisionText(d: Decision): string {
    match d case Allow => "allow" case Deny => "deny" case Review => "review"
  }

  function ParseDecision(s: string): (d: Option<Decision>) {
    if s == "allow" then Some(Allow) else if s == "deny" then Some(Deny)
    else if s == "review" then Some(Review) else None
  }

  function PostureText(p: Posture): string {
    match p
    case Normal => "normal" case Elevated => "elevated" case Restricted => "restricted" case Locked => "locked"
  }

  function ParsePosture(s: string): Option<Posture> {
    if s == "normal" then Some(Normal) else if s == "elevated" then Some(Elevated)
    else if s == "restricted" then Some(Restricted) else if s == "locked" then Some(Locked) else None
  }

  /** Each name is read as what it names, and nothing else is read. */
  lemma NamesReadBack(d: Decision, p: Posture, s: string)
    ensures ParseDecision(s) == Some(d) <==> s == DecisionText(d)
    ensures ParsePosture(s) == Some(p) <==> s == PostureText(p)
    ensures DecisionText(Allow) == "allow" && DecisionText(Deny) == "deny" && DecisionText(Review) == "review"
    ensures PostureText(Normal) == "normal" && PostureText(Elevated) == "elevated"
    ensures PostureText(Restricted) == "restricted" && PostureText(Locked) == "locked"
  {
  }
}
