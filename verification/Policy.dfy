/** The policy decision procedure (src/rif_runtime/policy.py). */
module Policy {
  import opened Wrappers
  import opened Schemas
  import opened RuleOrder

  datatype PolicyRule = PolicyRule(id: string, effect: Decision, action: string, target: string, reason: string)

  /** ``urlparse``-based host extraction, the targets for which it does not raise, and ``str.lower``. */
  datatype Names = Names(host: string -> string, parses: string -> bool, lower: string -> string)

  const NETWORK_ACTIONS: set<string> := {"http.request", "api.call", "mcp.invoke", "package.install"}

  predicate StartsWith(s: string, prefix: string) {
    prefix <= s
  }

  predicate EndsWith(s: string, suffix: string) {
    |suffix| <= |s| && s[|s| - |suffix|..] == suffix
  }

  predicate Permitted(names: Names, h: string, patterns: seq<string>) {
    exists i :: 0 <= i < |patterns| &&
      (h == names.lower(patterns[i]) || (StartsWith(patterns[i], "*.") && EndsWith(h, names.lower(patterns[i][1..]))))
  }

  predicate RuleMatches(names: Names, rule: PolicyRule, req: PolicyRequest) {
    if rule.action != "*" && rule.action != req.action then false
    else if rule.target == "*" then true
    else if req.action in NETWORK_ACTIONS then Permitted(names, names.host(req.target), [names.host(rule.target)])
    else Permitted(names, req.target, [rule.target])
  }

  predicate IsCatchAll(rule: PolicyRule) {
    rule.action == "*" && rule.target == "*"
  }

  /** How many of the two selectors name a concrete value. */
  function Specificity(rule: PolicyRule): nat {
    (if rule.action != "*" then 1 else 0) + (if rule.target != "*" then 1 else 0)
  }

  function OrderedRules(rules: seq<PolicyRule>): seq<PolicyRule> {
    SortedByRank(Filter(rules, r => !IsCatchAll(r)), Specificity)
  }

  function CatchAllRules(rules: seq<PolicyRule>): seq<PolicyRule> {
    Filter(rules, IsCatchAll)
  }

  /** Where a request is evaluated: the environment, its profile, the live posture and the time. */
  datatype Context = Context(environment: string, profile: EnvironmentProfile, posture: Posture, now: int)

  function Denial(req: PolicyRequest, c: Context, posture: Posture, reason: string, rule: string): PolicyDecision {
    PolicyDecision(Deny, req.actor, req.action, req.target, c.environment, posture, reason, rule, c.now)
  }

  function ByRule(req: PolicyRequest, c: Context, rule: PolicyRule): PolicyDecision {
    PolicyDecision(rule.effect, req.actor, req.action, req.target, c.environment, c.posture, rule.reason,
                   "policy." + rule.id, c.now)
  }

  function ByDefault(req: PolicyRequest, c: Context): PolicyDecision {
    PolicyDecision(Allow, req.actor, req.action, req.target, c.environment, c.posture, "allowed by constraints",
                   "default.allow", c.now)
  }

  /** The egress constraints of the environment profile, which deny at posture ``elevated``. */
  function EgressDenial(names: Names, req: PolicyRequest, c: Context): Option<PolicyDecision> {
    if req.action == "package.install" && !c.profile.allowPackageManagerNetworkAccess then
      Some(Denial(req, c, Elevated, "package manager egress disabled", "package.egress.disabled"))
    else if StartsWith(req.action, "mcp.") && !c.profile.allowMcpServerNetworkAccess then
      Some(Denial(req, c, Elevated, "MCP egress disabled", "mcp.egress.disabled"))
    else if req.action in NETWORK_ACTIONS && c.profile.networkingType == "limited"
            && !Permitted(names, names.host(req.target), c.profile.allowedHosts) then
      Some(Denial(req, c, Elevated, "host denied: " + names.host(req.target), "network.host.denied"))
    else None
  }

  /** The decision, as long as no host that has to be extracted makes ``urlparse`` raise. */
  function Evaluate(names: Names, req: PolicyRequest, c: Context, rules: seq<PolicyRule>): PolicyDecision {
    if c.posture == Locked then Denial(req, c, c.posture, "runtime locked", "posture.locked") else
    match FirstMatch(OrderedRules(rules), r => RuleMatches(names, r, req))
    case Some(rule) => ByRule(req, c, rule)
    case None =>
      match EgressDenial(names, req, c)
      case Some(denial) => denial
      case None =>
        if CatchAllRules(rules) != [] then ByRule(req, c, CatchAllRules(rules)[0]) else ByDefault(req, c)
  }

  // ---- which hosts and requests a rule or a profile covers -----------------------------------

  /** The host is the pattern in lower case, or the pattern is ``*.`` and a domain and the host ends in ``.`` and it. */
  ghost predicate Fits(names: Names, h: string, pattern: string) {
    || h == names.lower(pattern)
    || exists domain: string, sub: string :: pattern == "*." + domain && h == sub + names.lower("." + domain)
  }

  lemma FitsIff(names: Names, h: string, pattern: string)
    ensures Fits(names, h, pattern) <==> Permitted(names, h, [pattern])
  {
    var one := [pattern];
    if pattern != [] && StartsWith(pattern, "*.") && EndsWith(h, names.lower(pattern[1..])) {
      var domain, tail := pattern[2..], names.lower(pattern[1..]);
      assert pattern == "*." + domain && pattern[1..] == "." + domain;
      assert h == h[..|h| - |tail|] + tail;
    }
    if domain: string, sub: string :| pattern == "*." + domain && h == sub + names.lower("." + domain) {
      assert pattern[1..] == "." + domain;
      assert EndsWith(h, names.lower(pattern[1..]));
      assert one[0] == pattern;
    }
    if h == names.lower(pattern) { assert one[0] == pattern; }
  }

  /** A list of patterns permits exactly the hosts that fit one of them. */
  lemma PermittedIff(names: Names, h: string, patterns: seq<string>)
    ensures Permitted(names, h, patterns) <==> exists i :: 0 <= i < |patterns| && Fits(names, h, patterns[i])
  {
    forall i | 0 <= i < |patterns|
      ensures Fits(names, h, patterns[i]) <==>
              (h == names.lower(patterns[i])
               || (StartsWith(patterns[i], "*.") && EndsWith(h, names.lower(patterns[i][1..]))))
    {
      FitsIff(names, h, patterns[i]);
      assert [patterns[i]][0] == patterns[i];
    }
  }

  /** A pattern without a wildcard in front permits one host only: nothing that merely ends in it. */
  lemma PlainPatternFitsOneHost(names: Names, h: string, pattern: string)
    requires !StartsWith(pattern, "*.")
    ensures Fits(names, h, pattern) <==> h == names.lower(pattern)
  {
    if domain: string, sub: string :| pattern == "*." + domain && h == sub + names.lower("." + domain) {
      assert false;
    }
  }

  lemma NetworkActions(action: string)
    ensures action in NETWORK_ACTIONS <==>
            action == "http.request" || action == "api.call" || action == "mcp.invoke" || action == "package.install"
  {
  }

  /** Which requests a rule matches: by host for network actions, by the target as it stands for others. */
  lemma RuleMatchesIff(names: Names, rule: PolicyRule, req: PolicyRequest)
    ensures RuleMatches(names, rule, req) <==>
            && (rule.action == "*" || rule.action == req.action)
            && (rule.target == "*"
                || if req.action in NETWORK_ACTIONS then Fits(names, names.host(req.target), names.host(rule.target))
                   else Fits(names, req.target, rule.target))
  {
    FitsIff(names, names.host(req.target), names.host(rule.target));
    FitsIff(names, req.target, rule.target);
  }

  // ---- when evaluation raises ----------------------------------------------------------------

  /** Matching the rule needs a host that cannot be extracted. */
  predicate RuleRaises(names: Names, rule: PolicyRule, req: PolicyRequest) {
    && (rule.action == "*" || rule.action == req.action) && rule.target != "*"
    && req.action in NETWORK_ACTIONS && !(names.parses(req.target) && names.parses(rule.target))
  }

  /** The scan over the ordered rules stops at a match, or raises: ``None``. */
  function Scan(names: Names, req: PolicyRequest, ordered: seq<PolicyRule>): Option<Option<PolicyRule>> {
    if ordered == [] then Some(None)
    else if RuleRaises(names, ordered[0], req) then None
    else if RuleMatches(names, ordered[0], req) then Some(Some(ordered[0]))
    else Scan(names, req, ordered[1..])
  }

  /** The constraints need the request's host, unless one of the first two denies. */
  predicate EgressRaises(names: Names, req: PolicyRequest, profile: EnvironmentProfile) {
    && !(req.action == "package.install" && !profile.allowPackageManagerNetworkAccess)
    && !(StartsWith(req.action, "mcp.") && !profile.allowMcpServerNetworkAccess)
    && req.action in NETWORK_ACTIONS && !names.parses(req.target)
  }

  predicate Raises(names: Names, req: PolicyRequest, c: Context, rules: seq<PolicyRule>) {
    && c.posture != Locked
    && match Scan(names, req, OrderedRules(rules))
       case None => true
       case Some(Some(_)) => false
       case Some(None) => EgressRaises(names, req, c.profile)
  }

  /** What ``evaluate`` returns, if it returns. */
  function Judge(names: Names, req: PolicyRequest, c: Context, rules: seq<PolicyRule>): Option<PolicyDecision> {
    if Raises(names, req, c, rules) then None else Some(Evaluate(names, req, c, rules))
  }

  /** A selective rule that ends the scan, one way or the other. */
  predicate Stops(names: Names, req: PolicyRequest, rule: PolicyRule) {
    !IsCatchAll(rule) && (RuleRaises(names, rule, req) || RuleMatches(names, rule, req))
  }

  function FirstStop(names: Names, req: PolicyRequest, rules: seq<PolicyRule>): Option<PolicyRule> {
    FirstRanked(rules, Specificity, r => Stops(names, req, r))
  }

  /** ``w`` is the most specific of them, the earliest of equals. */
  ghost predicate StopsFirst(names: Names, req: PolicyRequest, rules: seq<PolicyRule>, w: nat) {
    Wins(rules, Specificity, r => Stops(names, req, r), w)
  }

  lemma {:induction false} ScanStopsFirst(names: Names, req: PolicyRequest, ordered: seq<PolicyRule>)
    ensures Scan(names, req, ordered) ==
            match FirstMatch(ordered, r => RuleRaises(names, r, req) || RuleMatches(names, r, req))
            case None => Some(None)
            case Some(rule) => if RuleRaises(names, rule, req) then None else Some(Some(rule))
  {
    if ordered != [] { ScanStopsFirst(names, req, ordered[1..]); }
  }

  lemma ScanStopsAtFirstStop(names: Names, req: PolicyRequest, rules: seq<PolicyRule>)
    ensures Scan(names, req, OrderedRules(rules)) ==
            match FirstStop(names, req, rules)
            case None => Some(None)
            case Some(rule) => if RuleRaises(names, rule, req) then None else Some(Some(rule))
  {
    ScanStopsFirst(names, req, OrderedRules(rules));
    FilterBeforeRanking(rules, r => !IsCatchAll(r), r => RuleRaises(names, r, req) || RuleMatches(names, r, req),
                        r => Stops(names, req, r), Specificity);
  }

  /**
   Exactly when evaluation raises: unlocked, for a network action, and either the most specific selective
   rule that matches or cannot be matched, the earliest of equals, cannot - or there is no such rule and
   the request's own host is needed and cannot be extracted. A broken rule further down does no harm.
   */
  lemma RaisesIff(names: Names, req: PolicyRequest, c: Context, rules: seq<PolicyRule>)
    ensures Raises(names, req, c, rules) <==>
            && c.posture != Locked && req.action in NETWORK_ACTIONS
            && if exists i :: 0 <= i < |rules| && Stops(names, req, rules[i])
               then exists w: nat :: StopsFirst(names, req, rules, w) && RuleRaises(names, rules[w], req)
               else EgressRaises(names, req, c.profile)
  {
    ScanStopsAtFirstStop(names, req, rules);
    var w := ScanFindsWinner(rules, Specificity, r => Stops(names, req, r));
    if exists i :: 0 <= i < |rules| && Stops(names, req, rules[i]) {
      forall v: nat | StopsFirst(names, req, rules, v) ensures v == w {
        WinnerIsUnique(rules, Specificity, r => Stops(names, req, r), v, w);
      }
    }
  }

  /** Where every target parses, evaluation always returns. */
  lemma ParsableIsJudged(names: Names, req: PolicyRequest, c: Context, rules: seq<PolicyRule>)
    requires names.parses(req.target) && forall i :: 0 <= i < |rules| ==> names.parses(rules[i].target)
    ensures Judge(names, req, c, rules) == Some(Evaluate(names, req, c, rules))
  {
    RaisesIff(names, req, c, rules);
  }

  /** And one broken target is enough: no HTTP request can be judged under such a rule. */
  lemma BrokenTargetRaises(names: Names, req: PolicyRequest, c: Context, rule: PolicyRule)
    requires !names.parses("http://[x") && req.action == "http.request" && c.posture != Locked
    requires rule.action == "http.request" && rule.target == "http://[x"
    ensures Judge(names, req, c, [rule]) == None
  {
    assert rule.target[0] == 'h';
    assert [rule][0] == rule && Stops(names, req, rule) && RuleRaises(names, rule, req);
    assert StopsFirst(names, req, [rule], 0);
    RaisesIff(names, req, c, [rule]);
  }

  /** Whichever branch decides, the decision is about the request and where and when it was made. */
  lemma DecisionNamesRequest(names: Names, req: PolicyRequest, c: Context, rules: seq<PolicyRule>)
    ensures var d := Evaluate(names, req, c, rules);
            && d.actor == req.actor && d.action == req.action && d.target == req.target
            && d.environment == c.environment && d.timestamp == c.now
            && (d.posture != c.posture ==> d.decision == Deny && d.posture == Elevated)
  {
  }

  /** A network request whose own host cannot be extracted raises under any rule on its action that names a target. */
  lemma BrokenRequestRaises(names: Names, req: PolicyRequest, c: Context, rule: PolicyRule)
    requires !names.parses(req.target) && req.action in NETWORK_ACTIONS && c.posture != Locked
    requires rule.action == req.action && rule.action != "*" && rule.target != "*"
    ensures Judge(names, req, c, [rule]) == None
  {
    assert [rule][0] == rule && Stops(names, req, rule) && RuleRaises(names, rule, req);
    assert StopsFirst(names, req, [rule], 0);
    RaisesIff(names, req, c, [rule]);
  }

  /** With no rules, its own host is needed in every environment, limited or not, unless egress is denied before. */
  lemma OwnHostIsNeeded(names: Names, req: PolicyRequest, c: Context)
    ensures Judge(names, req, c, []) == None <==>
            && c.posture != Locked && !names.parses(req.target)
            && (req.action in {"http.request", "api.call"}
                || (req.action == "mcp.invoke" && c.profile.allowMcpServerNetworkAccess)
                || (req.action == "package.install" && c.profile.allowPackageManagerNetworkAccess))
  {
    RaisesIff(names, req, c, []);
    NetworkActions(req.action);
    assert "http.request"[0] == 'h' && "api.call"[0] == 'a' && "package.install"[0] == 'p';
    assert StartsWith("mcp.invoke", "mcp.") by { assert "mcp.invoke"[..4] == "mcp."; }
  }

  /** What never needs a host: a rule on another action or with any target, and a request that is not on the network. */
  lemma RuleNeedsNoHost(names: Names, rule: PolicyRule, req: PolicyRequest)
    requires (rule.action != "*" && rule.action != req.action) || rule.target == "*" || req.action !in NETWORK_ACTIONS
    ensures !RuleRaises(names, rule, req)
  {
  }

  // ---- which rule decides --------------------------------------------------------------------

  /** A selective rule that matches the request. */
  predicate Applies(names: Names, req: PolicyRequest, rule: PolicyRule) {
    !IsCatchAll(rule) && RuleMatches(names, rule, req)
  }

  /** ``w`` is the most specific selective rule that matches, the earliest of equals. */
  ghost predicate Decides(names: Names, req: PolicyRequest, rules: seq<PolicyRule>, w: nat) {
    Wins(rules, Specificity, r => Applies(names, req, r), w)
  }

  lemma ScanIsRanking(names: Names, req: PolicyRequest, rules: seq<PolicyRule>)
    ensures FirstMatch(OrderedRules(rules), r => RuleMatches(names, r, req)) ==
            FirstRanked(rules, Specificity, r => Applies(names, req, r))
  {
    FilterBeforeRanking(rules, r => !IsCatchAll(r), r => RuleMatches(names, r, req), r => Applies(names, req, r),
                        Specificity);
  }

  /** Unlocked, the deciding rule's effect is the decision; with none, the constraints and fallbacks decide. */
  lemma WinnerDecides(names: Names, req: PolicyRequest, c: Context, rules: seq<PolicyRule>) returns (w: nat)
    requires c.posture != Locked
    ensures (exists i :: 0 <= i < |rules| && Applies(names, req, rules[i])) ==>
      && Decides(names, req, rules, w) && Evaluate(names, req, c, rules) == ByRule(req, c, rules[w])
      && var d := Evaluate(names, req, c, rules);
         && d.decision == rules[w].effect && d.matchedRule == "policy." + rules[w].id && d.reason == rules[w].reason
         && d.posture == c.posture
    ensures !(exists i :: 0 <= i < |rules| && Applies(names, req, rules[i])) ==>
      Evaluate(names, req, c, rules) == Evaluate(names, req, c, CatchAllRules(rules))
  {
    ScanIsRanking(names, req, rules);
    w := ScanFindsWinner(rules, Specificity, r => Applies(names, req, r));
    var fallback := CatchAllRules(rules);
    FallbackIsFixed(rules);
    if FirstRanked(rules, Specificity, r => Applies(names, req, r)) == None {
      assert OrderedRules(fallback) == [];
    }
  }

  lemma {:induction false} FallbackIsFixed(rules: seq<PolicyRule>)
    ensures CatchAllRules(CatchAllRules(rules)) == CatchAllRules(rules)
    ensures Filter(CatchAllRules(rules), r => !IsCatchAll(r)) == []
    ensures CatchAllRules(Filter(rules, r => !IsCatchAll(r))) == []
    ensures Filter(Filter(rules, r => !IsCatchAll(r)), r => !IsCatchAll(r)) == Filter(rules, r => !IsCatchAll(r))
  {
    FilterAfterFilter(rules, IsCatchAll, IsCatchAll, IsCatchAll);
    FilterAfterFilter(rules, IsCatchAll, r => !IsCatchAll(r), (r: PolicyRule) => false);
    FilterAfterFilter(rules, r => !IsCatchAll(r), IsCatchAll, (r: PolicyRule) => false);
    FilterAfterFilter(rules, r => !IsCatchAll(r), r => !IsCatchAll(r), r => !IsCatchAll(r));
    FilterNothing(rules);
  }

  lemma {:induction false} FilterNothing(rules: seq<PolicyRule>)
    ensures Filter(rules, (r: PolicyRule) => false) == []
  {
    if rules != [] { FilterNothing(rules[1..]); }
  }

  // ---- what the decision does not depend on --------------------------------------------------

  /** Reordering rules of different specificity never changes a decision. */
  lemma ReorderingIsInert(names: Names, req: PolicyRequest, c: Context, rules: seq<PolicyRule>, rules': seq<PolicyRule>)
    requires forall k: nat :: OfRank(rules, Specificity, k) == OfRank(rules', Specificity, k)
    ensures Evaluate(names, req, c, rules) == Evaluate(names, req, c, rules')
    ensures Judge(names, req, c, rules) == Judge(names, req, c, rules')
  {
    SameRanksSameOrder(rules, rules', Specificity);
    ScanStopsAtFirstStop(names, req, rules);
    ScanStopsAtFirstStop(names, req, rules');
    ScanIsRanking(names, req, rules);
    ScanIsRanking(names, req, rules');
    CatchAllsAreRankZero(rules);
    CatchAllsAreRankZero(rules');
  }

  lemma {:induction false} CatchAllsAreRankZero(rules: seq<PolicyRule>)
    ensures CatchAllRules(rules) == OfRank(rules, Specificity, 0)
  {
    if rules != [] {
      CatchAllsAreRankZero(rules[1..]);
      assert IsCatchAll(rules[0]) <==> Specificity(rules[0]) == 0;
    }
  }

  /** A selective rule that does not match - and can be matched at all - can be inserted anywhere without effect. */
  lemma NonMatchingRuleIsInert(names: Names, req: PolicyRequest, c: Context,
                               a: seq<PolicyRule>, rule: PolicyRule, b: seq<PolicyRule>)
    requires !IsCatchAll(rule) && !RuleMatches(names, rule, req)
    ensures Evaluate(names, req, c, a + [rule] + b) == Evaluate(names, req, c, a + b)
    ensures !RuleRaises(names, rule, req) ==> Judge(names, req, c, a + [rule] + b) == Judge(names, req, c, a + b)
  {
    if !RuleRaises(names, rule, req) {
      ScanStopsAtFirstStop(names, req, a + [rule] + b);
      ScanStopsAtFirstStop(names, req, a + b);
      NonMatchingIsInert(a, rule, b, Specificity, r => Stops(names, req, r));
    }
    ScanIsRanking(names, req, a + [rule] + b);
    ScanIsRanking(names, req, a + b);
    NonMatchingIsInert(a, rule, b, Specificity, r => Applies(names, req, r));
    FilterConcat(a + [rule], b, IsCatchAll);
    FilterConcat(a, [rule], IsCatchAll);
    FilterConcat(a, b, IsCatchAll);
    assert [rule][1..] == [];
    assert Filter([rule], IsCatchAll) == [] by { assert Filter([rule][1..], IsCatchAll) == []; }
  }

  /**
   Catch-alls are pure fallback: with any of them, the decision is the one reached without them,
   except that the first of them replaces the built-in default.
   */
  lemma CatchAllsOnlyReplaceDefault(names: Names, req: PolicyRequest, c: Context, rules: seq<PolicyRule>)
    ensures var without := Evaluate(names, req, c, Filter(rules, r => !IsCatchAll(r)));
            Evaluate(names, req, c, rules) ==
            if without.matchedRule == "default.allow" && CatchAllRules(rules) != []
            then ByRule(req, c, CatchAllRules(rules)[0]) else without
    ensures Raises(names, req, c, rules) <==> Raises(names, req, c, Filter(rules, r => !IsCatchAll(r)))
  {
    FallbackIsFixed(rules);
    assert forall rule: PolicyRule :: ByRule(req, c, rule).matchedRule[0] == 'p';
  }

  /** What the environment profile demands of a request that no selective rule decides. */
  predicate ProfilePermits(names: Names, req: PolicyRequest, profile: EnvironmentProfile) {
    && (req.action == "package.install" ==> profile.allowPackageManagerNetworkAccess)
    && (StartsWith(req.action, "mcp.") ==> profile.allowMcpServerNetworkAccess)
    && (req.action in NETWORK_ACTIONS && profile.networkingType == "limited" ==>
          Permitted(names, names.host(req.target), profile.allowedHosts))
  }

  /** In a limited environment a network request needs a host that fits an allowed one. */
  lemma ProfilePermitsIff(names: Names, req: PolicyRequest, profile: EnvironmentProfile)
    ensures ProfilePermits(names, req, profile) <==>
            && (req.action == "package.install" ==> profile.allowPackageManagerNetworkAccess)
            && (StartsWith(req.action, "mcp.") ==> profile.allowMcpServerNetworkAccess)
            && (req.action in NETWORK_ACTIONS && profile.networkingType == "limited" ==>
                  exists i :: 0 <= i < |profile.allowedHosts|
                              && Fits(names, names.host(req.target), profile.allowedHosts[i]))
  {
    PermittedIff(names, names.host(req.target), profile.allowedHosts);
  }

  /**
   A request is allowed iff the runtime is unlocked and: the deciding rule allows it, if some
   selective rule applies; otherwise the profile permits it and the first catch-all, if any, allows.
   */
  lemma AllowedIff(names: Names, req: PolicyRequest, c: Context, rules: seq<PolicyRule>)
    ensures Evaluate(names, req, c, rules).decision == Allow <==>
            && c.posture != Locked
            && if exists i :: 0 <= i < |rules| && Applies(names, req, rules[i])
               then exists w: nat :: Decides(names, req, rules, w) && rules[w].effect == Allow
               else ProfilePermits(names, req, c.profile)
                    && (CatchAllRules(rules) != [] ==> CatchAllRules(rules)[0].effect == Allow)
  {
    if c.posture != Locked {
      var w := WinnerDecides(names, req, c, rules);
      if exists i :: 0 <= i < |rules| && Applies(names, req, rules[i]) {
        forall v: nat | Decides(names, req, rules, v) ensures v == w {
          WinnerIsUnique(rules, Specificity, r => Applies(names, req, r), v, w);
        }
      } else {
        ScanIsRanking(names, req, rules);
        w := ScanFindsWinner(rules, Specificity, r => Applies(names, req, r));
      }
    }
  }

  /** Where no selective rule applies, the log names what decided: a constraint, a catch-all or the default. */
  lemma FallbackTells(names: Names, req: PolicyRequest, c: Context, rules: seq<PolicyRule>)
    requires c.posture != Locked && forall i :: 0 <= i < |rules| ==> !Applies(names, req, rules[i])
    ensures var d := Evaluate(names, req, c, rules);
            if req.action == "package.install" && !c.profile.allowPackageManagerNetworkAccess then
              d.decision == Deny && d.matchedRule == "package.egress.disabled" && d.posture == Elevated
            else if StartsWith(req.action, "mcp.") && !c.profile.allowMcpServerNetworkAccess then
              d.decision == Deny && d.matchedRule == "mcp.egress.disabled" && d.posture == Elevated
            else if !ProfilePermits(names, req, c.profile) then
              d.decision == Deny && d.matchedRule == "network.host.denied" && d.posture == Elevated
            else if CatchAllRules(rules) != [] then
              d.decision == CatchAllRules(rules)[0].effect && d.matchedRule == "policy." + CatchAllRules(rules)[0].id
            else d.decision == Allow && d.matchedRule == "default.allow"
  {
    ScanIsRanking(names, req, rules);
    var w := ScanFindsWinner(rules, Specificity, r => Applies(names, req, r));
  }

  /** Deny by default: a request is allowed exactly when unlocked and its deciding rule allows it. */
  lemma DenyByDefault(names: Names, req: PolicyRequest, c: Context, rules: seq<PolicyRule>)
    requires CatchAllRules(rules) != [] && CatchAllRules(rules)[0].effect == Deny
    ensures Evaluate(names, req, c, rules).decision == Allow <==>
            c.posture != Locked && exists w: nat :: Decides(names, req, rules, w) && rules[w].effect == Allow
  {
    AllowedIff(names, req, c, rules);
  }
}
