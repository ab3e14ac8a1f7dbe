/** The stored rule list and its upgrade (src/rif_runtime/configuration/policies.py). */
module PolicyStorage {
  import opened Wrappers
  import opened Schemas
  import opened RuleOrder
  import opened Policy

  /** A rule as stored: any field may be missing. ``effect`` is missing when it names no decision. */
  datatype RawRule = RawRule(
    id: Option<string>,
    effect: Option<Decision>,
    action: Option<string>,
    target: Option<string>,
    reason: Option<string>)

  function OrElse<T>(o: Option<T>, default: T): T {
    match o case Some(v) => v case None => default
  }

  /** ``PolicyRule.model_validate`` */
  function Validated(raw: RawRule): Option<PolicyRule> {
    if raw.id.Some? && raw.effect.Some? then
      Some(PolicyRule(raw.id.value, raw.effect.value, OrElse(raw.action, "*"), OrElse(raw.target, "*"),
                      OrElse(raw.reason, "configured policy rule")))
    else None
  }

  function Dumped(rule: PolicyRule): RawRule {
    RawRule(Some(rule.id), Some(rule.effect), Some(rule.action), Some(rule.target), Some(rule.reason))
  }

  /** ``PolicyStore.list``: every stored rule must validate. */
  function Listed(rules: seq<RawRule>): Option<seq<PolicyRule>> {
    MapAll(rules, Validated)
  }

  const ALLOW_RUN_CREATE := PolicyRule("allow_run_create", Allow, "run.create", "*",
                                       "first-party governed run creation (POST /v1/runs)")
  const ALLOW_KNOWN_MODEL_HOSTS := PolicyRule("allow_known_model_hosts", Allow, "http.request", "api.anthropic.com",
                                              "known model API host")
  const DENY_UNKNOWN := PolicyRule("deny_unknown_by_default", Deny, "*", "*", "deny by default")

  const DEFAULT_POLICIES: seq<RawRule> :=
    [Dumped(ALLOW_RUN_CREATE), Dumped(ALLOW_KNOWN_MODEL_HOSTS), Dumped(DENY_UNKNOWN)]

  const REQUIRED_FIRST_PARTY_RULE_IDS: set<string> := {"allow_run_create"}

  predicate IsRawCatchAll(raw: RawRule) {
    OrElse(raw.action, "*") == "*" && OrElse(raw.target, "*") == "*"
  }

  predicate HasId(rules: seq<RawRule>, id: Option<string>) {
    exists i :: 0 <= i < |rules| && rules[i].id == id
  }

  function Missing(rules: seq<RawRule>): seq<RawRule> {
    Filter(DEFAULT_POLICIES,
           (r: RawRule) => r.id.Some? && r.id.value in REQUIRED_FIRST_PARTY_RULE_IDS && !HasId(rules, r.id))
  }

  /** The index of the first catch-all, or the end. */
  function InsertAt(rules: seq<RawRule>): (k: nat)
    ensures k <= |rules|
    ensures forall i :: 0 <= i < k ==> !IsRawCatchAll(rules[i])
    ensures k < |rules| ==> IsRawCatchAll(rules[k])
  {
    if rules == [] || IsRawCatchAll(rules[0]) then 0 else 1 + InsertAt(rules[1..])
  }

  function Upgraded(rules: seq<RawRule>): seq<RawRule> {
    var k := InsertAt(rules);
    rules[..k] + Missing(rules) + rules[k..]
  }

  function Without(rules: seq<RawRule>, id: string): seq<RawRule> {
    Filter(rules, (r: RawRule) => r.id != Some(id))
  }

  function Redumped(rules: seq<PolicyRule>): seq<RawRule> {
    seq(|rules|, i requires 0 <= i < |rules| => Dumped(rules[i]))
  }

  /** The validated list without the rules of that id, dumped, and the new rule at the end. */
  function AfterUpsert(rules: seq<RawRule>, rule: PolicyRule): Option<seq<RawRule>> {
    match Listed(rules)
    case None => None
    case Some(listed) => Some(Without(Redumped(listed), rule.id) + [Dumped(rule)])
  }

  function AfterDelete(rules: seq<RawRule>, id: string): Option<seq<RawRule>> {
    match Listed(rules)
    case None => None
    case Some(listed) => Some(Without(Redumped(listed), id))
  }

  class PolicyStore {
    var rules: seq<RawRule>

    /** ``stored`` is the content of an existing policies.json, if there is one. */
    constructor (stored: Option<seq<RawRule>>)
      ensures rules == Upgraded(OrElse(stored, DEFAULT_POLICIES))
    {
      rules := OrElse(stored, DEFAULT_POLICIES);
      new;
      EnsureRequiredFirstPartyRules();
    }

    method EnsureRequiredFirstPartyRules()
      modifies this
      ensures rules == Upgraded(old(rules))
    {
      var missing := Missing(rules);
      var insertAt := InsertAt(rules);
      if missing == [] {
        assert rules == rules[..insertAt] + [] + rules[insertAt..];
        return;
      }
      rules := rules[..insertAt] + missing + rules[insertAt..];
    }

    /** An unreadable store is left alone. */
    method Upsert(rule: PolicyRule) returns (ok: bool)
      modifies this
      ensures ok <==> Listed(old(rules)).Some?
      ensures rules == OrElse(AfterUpsert(old(rules), rule), old(rules))
    {
      var listed := Listed(rules);
      if listed.None? { return false; }
      var kept := Without(Redumped(listed.value), rule.id);
      rules := kept + [Dumped(rule)];
      return true;
    }

    /** ``deleted`` tells whether a rule was removed, ``None`` that the store could not be read. */
    method Delete(id: string) returns (deleted: Option<bool>)
      modifies this
      ensures deleted.Some? <==> Listed(old(rules)).Some?
      ensures rules == OrElse(AfterDelete(old(rules), id), old(rules))
      ensures deleted.Some? ==> (deleted.value <==> HasId(old(rules), Some(id)))
    {
      var listed := Listed(rules);
      if listed.None? { return None; }
      var dumped := Redumped(listed.value);
      var kept := Without(dumped, id);
      WithoutIsShorter(dumped, id);
      ListedKeepsIds(rules, Some(id));
      rules := kept;
      return Some(|kept| != |dumped|);
    }
  }

  // ---- reading back --------------------------------------------------------------------------

  lemma {:induction false} ListedKeepsIds(rules: seq<RawRule>, id: Option<string>)
    requires Listed(rules).Some?
    ensures |Listed(rules).value| == |rules|
    ensures HasId(rules, id) <==> HasId(Redumped(Listed(rules).value), id)
  {
    if rules != [] {
      ListedKeepsIds(rules[1..], id);
      var all, rest := Redumped(Listed(rules).value), Redumped(Listed(rules[1..]).value);
      assert all[0].id == rules[0].id && all[1..] == rest;
      HasIdStep(rules, id);
      HasIdStep(all, id);
    }
  }

  lemma HasIdStep(rules: seq<RawRule>, id: Option<string>)
    requires rules != []
    ensures HasId(rules, id) <==> rules[0].id == id || HasId(rules[1..], id)
  {
    if i :| 0 <= i < |rules| && rules[i].id == id && i > 0 {
      assert rules[1..][i - 1].id == id;
    }
    if i :| 0 <= i < |rules[1..]| && rules[1..][i].id == id {
      assert rules[i + 1].id == id;
    }
  }

  lemma {:induction false} WithoutIsShorter(rules: seq<RawRule>, id: string)
    ensures |Without(rules, id)| <= |rules|
    ensures |Without(rules, id)| != |rules| <==> HasId(rules, Some(id))
  {
    if rules != [] {
      WithoutIsShorter(rules[1..], id);
      HasIdStep(rules, Some(id));
    }
  }

  lemma {:induction false} WithoutRemovesId(rules: seq<RawRule>, id: string)
    ensures !HasId(Without(rules, id), Some(id))
    ensures !HasId(rules, Some(id)) ==> Without(rules, id) == rules
  {
    if rules != [] {
      WithoutRemovesId(rules[1..], id);
      HasIdStep(rules, Some(id));
      if rules[0].id != Some(id) {
        assert Without(rules, id)[1..] == Without(rules[1..], id);
        HasIdStep(Without(rules, id), Some(id));
      }
    }
  }

  /** What is dumped validates as what it was. */
  lemma {:induction false} RedumpedIsListed(listed: seq<PolicyRule>)
    ensures Listed(Redumped(listed)) == Some(listed)
  {
    if listed != [] {
      RedumpedIsListed(listed[1..]);
      assert Redumped(listed)[0] == Dumped(listed[0]) && Redumped(listed)[1..] == Redumped(listed[1..]);
      assert listed == [listed[0]] + listed[1..];
    }
  }

  function OfOtherId(id: string): PolicyRule -> bool {
    (rule: PolicyRule) => rule.id != id
  }

  lemma {:induction false} WithoutRedumped(listed: seq<PolicyRule>, id: string)
    ensures Without(Redumped(listed), id) == Redumped(Filter(listed, OfOtherId(id)))
  {
    if listed != [] {
      WithoutRedumped(listed[1..], id);
      assert Redumped(listed)[0] == Dumped(listed[0]) && Redumped(listed)[1..] == Redumped(listed[1..]);
    }
  }

  /** What a store lists after an upsert: the other rules as they stood, and the new one last. */
  lemma UpsertIsListed(rules: seq<RawRule>, rule: PolicyRule)
    requires Listed(rules).Some?
    ensures AfterUpsert(rules, rule).Some?
    ensures Listed(AfterUpsert(rules, rule).value) == Some(Filter(Listed(rules).value, OfOtherId(rule.id)) + [rule])
  {
    var kept := Filter(Listed(rules).value, OfOtherId(rule.id));
    WithoutRedumped(Listed(rules).value, rule.id);
    assert Redumped(kept) + [Dumped(rule)] == Redumped(kept + [rule]);
    RedumpedIsListed(kept + [rule]);
  }

  /**
   Deleting undoes upserting: the store is as if only the delete had happened - for a rule it did not
   have, the list it had, as validated and dumped.
   */
  lemma DeleteUndoesUpsert(rules: seq<RawRule>, rule: PolicyRule)
    requires Listed(rules).Some?
    ensures AfterUpsert(rules, rule).Some?
    ensures AfterDelete(AfterUpsert(rules, rule).value, rule.id) == AfterDelete(rules, rule.id)
    ensures !HasId(rules, Some(rule.id)) ==> AfterDelete(rules, rule.id) == Some(Redumped(Listed(rules).value))
  {
    var listed, other := Listed(rules).value, OfOtherId(rule.id);
    var kept := Filter(listed, other);
    UpsertIsListed(rules, rule);
    WithoutRedumped(kept + [rule], rule.id);
    WithoutRedumped(listed, rule.id);
    FilterConcat(kept, [rule], other);
    assert [rule][1..] == [] && Filter([rule][1..], other) == [];
    FilterAfterFilter(listed, other, other, other);
    assert kept + [] == kept;
    ListedKeepsIds(rules, Some(rule.id));
    WithoutRemovesId(Redumped(listed), rule.id);
  }

  // ---- the upgrade ---------------------------------------------------------------------------

  lemma MissingIsRunCreate(rules: seq<RawRule>)
    ensures Missing(rules) == if HasId(rules, Some("allow_run_create")) then [] else [Dumped(ALLOW_RUN_CREATE)]
  {
    var keep := (r: RawRule) => r.id.Some? && r.id.value in REQUIRED_FIRST_PARTY_RULE_IDS && !HasId(rules, r.id);
    var a, b, c := Dumped(ALLOW_RUN_CREATE), Dumped(ALLOW_KNOWN_MODEL_HOSTS), Dumped(DENY_UNKNOWN);
    assert DEFAULT_POLICIES[1..] == [b, c] && [b, c][1..] == [c] && [c][1..] == [];
    assert "allow_known_model_hosts"[6] != "allow_run_create"[6];
    assert "deny_unknown_by_default"[0] != "allow_run_create"[0];
    assert !keep(b) && !keep(c);
    assert Filter([c], keep) == Filter([c][1..], keep) == [];
    assert Filter([b, c], keep) == Filter([b, c][1..], keep);
    assert Missing(rules) == (if keep(a) then [a] else []) + Filter(DEFAULT_POLICIES[1..], keep);
  }

  /** Every required id is there afterwards, and what was inserted stands before every catch-all. */
  lemma UpgradeIsComplete(rules: seq<RawRule>)
    ensures HasId(Upgraded(rules), Some("allow_run_create"))
    ensures !HasId(rules, Some("allow_run_create")) ==>
      var k := InsertAt(rules);
      && Upgraded(rules) == rules[..k] + [Dumped(ALLOW_RUN_CREATE)] + rules[k..]
      && forall i :: 0 <= i < |Upgraded(rules)| && IsRawCatchAll(Upgraded(rules)[i]) ==> k < i
  {
    MissingIsRunCreate(rules);
    var k := InsertAt(rules);
    if HasId(rules, Some("allow_run_create")) {
      assert Upgraded(rules) == rules;
    } else {
      assert Upgraded(rules)[k] == Dumped(ALLOW_RUN_CREATE);
      assert ALLOW_RUN_CREATE.action[0] == 'r';
    }
  }

  lemma UpgradeIsIdempotent(rules: seq<RawRule>)
    ensures Upgraded(Upgraded(rules)) == Upgraded(rules)
  {
    UpgradeIsComplete(rules);
    MissingIsRunCreate(Upgraded(rules));
  }

  /**
   Exactly what the upgrade changes: a request is newly allowed by the inserted rule iff it is for
   ``run.create``, unlocked, and no selective rule of the old list matches it before the first
   catch-all, nor one naming action and target behind it. Every other decision stays, under every
   profile and posture. A matching rule behind the catch-all naming only one of the two loses.
   */
  lemma UpgradeChangesOnlyRunCreate(names: Names, req: PolicyRequest, c: Context, rules: seq<RawRule>)
    requires Listed(rules).Some?
    ensures var listed, k := Listed(rules).value, InsertAt(rules);
            && |listed| == |rules| && Listed(Upgraded(rules)).Some?
            && var applies := (r: PolicyRule) => Applies(names, req, r);
               var front := FirstRanked(listed[..k], Specificity, applies);
               var back := FirstRanked(listed[k..], Specificity, applies);
               Evaluate(names, req, c, Listed(Upgraded(rules)).value) ==
               if !HasId(rules, Some("allow_run_create")) && req.action == "run.create" && c.posture != Locked
                  && front.None? && (back.None? || Specificity(back.value) < 2)
               then ByRule(req, c, ALLOW_RUN_CREATE)
               else Evaluate(names, req, c, listed)
  {
    var k, listed := InsertAt(rules), Listed(rules).value;
    ListedUpgrade(rules);
    assert listed == listed[..k] + listed[k..];
    InsertRunCreate(names, req, c, listed[..k], listed[k..]);
  }

  lemma ListedInsert(a: seq<RawRule>, rule: PolicyRule, b: seq<RawRule>)
    requires Listed(a + b).Some?
    ensures var listed := Listed(a + b).value;
            |listed| == |a| + |b| && Listed(a + [Dumped(rule)] + b) == Some(listed[..|a|] + [rule] + listed[|a|..])
  {
    assert Validated(Dumped(rule)) == Some(rule);
    MapAllInsert(a, Dumped(rule), b, Validated);
  }

  /** The upgrade and the engine see the same catch-alls: a missing selector is ``*`` to both. */
  lemma ValidatedCatchAll(raw: RawRule)
    requires Validated(raw).Some?
    ensures IsRawCatchAll(raw) <==> IsCatchAll(Validated(raw).value)
    ensures Some(Validated(raw).value.id) == raw.id && Some(Validated(raw).value.effect) == raw.effect
    ensures Validated(raw).value.action == (if raw.action == None then "*" else raw.action.value)
    ensures Validated(raw).value.target == (if raw.target == None then "*" else raw.target.value)
    ensures Validated(raw).value.reason == (if raw.reason == None then "configured policy rule" else raw.reason.value)
  {
  }

  lemma ListedUpgrade(rules: seq<RawRule>)
    requires Listed(rules).Some?
    ensures |Listed(rules).value| == |rules|
    ensures var listed, k := Listed(rules).value, InsertAt(rules);
            Listed(Upgraded(rules)) ==
            Some(if HasId(rules, Some("allow_run_create")) then listed
                 else listed[..k] + [ALLOW_RUN_CREATE] + listed[k..])
  {
    var k := InsertAt(rules);
    ListedKeepsIds(rules, None);
    if HasId(rules, Some("allow_run_create")) {
      MissingIsRunCreate(rules);
      assert Upgraded(rules) == rules;
    } else {
      UpgradeIsComplete(rules);
      assert rules == rules[..k] + rules[k..];
      ListedInsert(rules[..k], ALLOW_RUN_CREATE, rules[k..]);
    }
  }

  /** Nor does the upgrade make an evaluation raise that returned, or return that raised. */
  lemma UpgradeNeitherRaisesNorMends(names: Names, req: PolicyRequest, c: Context, rules: seq<RawRule>)
    requires Listed(rules).Some?
    ensures Listed(Upgraded(rules)).Some?
    ensures Judge(names, req, c, Listed(Upgraded(rules)).value).Some? <==>
            Judge(names, req, c, Listed(rules).value).Some?
  {
    var k, listed := InsertAt(rules), Listed(rules).value;
    ListedUpgrade(rules);
    assert listed == listed[..k] + listed[k..];
    if req.action == ALLOW_RUN_CREATE.action {
      assert "run.create" !in NETWORK_ACTIONS;
      RaisesIff(names, req, c, listed);
      RaisesIff(names, req, c, Listed(Upgraded(rules)).value);
    } else {
      assert ALLOW_RUN_CREATE.action[0] == 'r';
      NonMatchingRuleIsInert(names, req, c, listed[..k], ALLOW_RUN_CREATE, listed[k..]);
    }
  }

  lemma InsertRunCreate(names: Names, req: PolicyRequest, c: Context, a: seq<PolicyRule>, b: seq<PolicyRule>)
    ensures var applies := (r: PolicyRule) => Applies(names, req, r);
            var front, back := FirstRanked(a, Specificity, applies), FirstRanked(b, Specificity, applies);
            Evaluate(names, req, c, a + [ALLOW_RUN_CREATE] + b) ==
            if req.action == "run.create" && c.posture != Locked
               && front.None? && (back.None? || Specificity(back.value) < 2)
            then ByRule(req, c, ALLOW_RUN_CREATE)
            else Evaluate(names, req, c, a + b)
  {
    var n := ALLOW_RUN_CREATE;
    var applies := (r: PolicyRule) => Applies(names, req, r);
    assert n.action[0] == 'r';
    if req.action != n.action {
      NonMatchingRuleIsInert(names, req, c, a, n, b);
    } else {
      var scan := (r: PolicyRule) => RuleMatches(names, r, req);
      FilterBeforeRanking(a + [n] + b, r => !IsCatchAll(r), scan, applies, Specificity);
      FilterBeforeRanking(a + b, r => !IsCatchAll(r), scan, applies, Specificity);
      MatchingTakesOver(a, n, b, Specificity, applies);
      var w := ScanFindsWinner(a, Specificity, applies);
      FilterConcat(a + [n], b, IsCatchAll);
      FilterConcat(a, [n], IsCatchAll);
      FilterConcat(a, b, IsCatchAll);
      assert [n][1..] == [] && Filter([n][1..], IsCatchAll) == [];
      assert Filter([n], IsCatchAll) == [];
    }
  }

  const DENY_ALL := PolicyRule("deny_all", Deny, "*", "*", "nothing by default")
  const DENY_RUNS := PolicyRule("deny_runs", Deny, "run.create", "*", "no runs here")

  /** An operator who wrote these two rules denied runs; after the upgrade the same request is allowed. */
  lemma UpgradeAllowsDeniedRun(names: Names, req: PolicyRequest, c: Context, rules: seq<RawRule>)
    requires rules == [Dumped(DENY_ALL), Dumped(DENY_RUNS)] && req.action == "run.create" && c.posture != Locked
    ensures Listed(rules) == Some([DENY_ALL, DENY_RUNS]) && Listed(Upgraded(rules)).Some?
    ensures Evaluate(names, req, c, [DENY_ALL, DENY_RUNS]) == ByRule(req, c, DENY_RUNS)
    ensures Evaluate(names, req, c, Listed(Upgraded(rules)).value) == ByRule(req, c, ALLOW_RUN_CREATE)
    ensures Evaluate(names, req, c, [DENY_ALL, DENY_RUNS]).decision == Deny
    ensures Evaluate(names, req, c, Listed(Upgraded(rules)).value).decision == Allow
  {
    var both, applies := [DENY_ALL, DENY_RUNS], (r: PolicyRule) => Applies(names, req, r);
    assert rules == Redumped(both);
    RedumpedIsListed(both);
    assert "run.create"[0] != "*"[0];
    assert "deny_all"[0] != "allow_run_create"[0] && "deny_runs"[0] != "allow_run_create"[0];
    assert applies(DENY_RUNS) && !applies(DENY_ALL);
    var w := WinnerDecides(names, req, c, both);
    assert applies(both[1]) && w == 1;
    ScanIsRanking(names, req, both);
    var v := ScanFindsWinner(both, Specificity, applies);
    assert both[..0] == [] && both[0..] == both && InsertAt(rules) == 0;
    UpgradeChangesOnlyRunCreate(names, req, c, rules);
  }

  lemma SeededRules()
    ensures Listed(Upgraded(DEFAULT_POLICIES)) == Some([ALLOW_RUN_CREATE, ALLOW_KNOWN_MODEL_HOSTS, DENY_UNKNOWN])
  {
    var listed := [ALLOW_RUN_CREATE, ALLOW_KNOWN_MODEL_HOSTS, DENY_UNKNOWN];
    assert DEFAULT_POLICIES == Redumped(listed);
    RedumpedIsListed(listed);
    assert DEFAULT_POLICIES[0].id == Some("allow_run_create");
    ListedUpgrade(DEFAULT_POLICIES);
  }

  lemma SeededCatchAlls()
    ensures CatchAllRules([ALLOW_RUN_CREATE, ALLOW_KNOWN_MODEL_HOSTS, DENY_UNKNOWN]) == [DENY_UNKNOWN]
  {
    var a, b, d := ALLOW_RUN_CREATE, ALLOW_KNOWN_MODEL_HOSTS, DENY_UNKNOWN;
    assert a.action[0] == 'r' && b.action[0] == 'h';
    assert [a, b, d][1..] == [b, d] && [b, d][1..] == [d] && [d][1..] == [];
    assert CatchAllRules([d]) == [d] + CatchAllRules([d][1..]);
    assert CatchAllRules([b, d]) == [] + CatchAllRules([b, d][1..]);
  }

  lemma SeededRulesApply(names: Names, req: PolicyRequest)
    requires names.host("api.anthropic.com") == "api.anthropic.com" == names.lower("api.anthropic.com")
    ensures Applies(names, req, ALLOW_RUN_CREATE) <==> req.action == "run.create"
    ensures Applies(names, req, ALLOW_KNOWN_MODEL_HOSTS) <==>
            req.action == "http.request" && names.host(req.target) == "api.anthropic.com"
    ensures !Applies(names, req, DENY_UNKNOWN)
  {
    assert ALLOW_RUN_CREATE.action[0] == 'r' && ALLOW_KNOWN_MODEL_HOSTS.action[0] == 'h';
    assert ALLOW_KNOWN_MODEL_HOSTS.target[0] == 'a';
    RuleMatchesIff(names, ALLOW_KNOWN_MODEL_HOSTS, req);
    PlainPatternFitsOneHost(names, names.host(req.target), "api.anthropic.com");
  }

  /**
   What a newly seeded store allows, under every profile: creating runs, and HTTP requests to the one known
   host - not to hosts that end in its name, and nothing else.
   */
  lemma SeededStoreAllowsExactly(names: Names, req: PolicyRequest, c: Context)
    requires names.host("api.anthropic.com") == "api.anthropic.com" == names.lower("api.anthropic.com")
    ensures var listed := Listed(Upgraded(DEFAULT_POLICIES));
            && listed.Some?
            && (Evaluate(names, req, c, listed.value).decision == Allow <==>
                  && c.posture != Locked
                  && (req.action == "run.create"
                      || (req.action == "http.request" && names.host(req.target) == "api.anthropic.com")))
  {
    var rules := [ALLOW_RUN_CREATE, ALLOW_KNOWN_MODEL_HOSTS, DENY_UNKNOWN];
    SeededRules();
    SeededCatchAlls();
    SeededRulesApply(names, req);
    DenyByDefault(names, req, c, rules);
    if c.posture != Locked {
      var w := WinnerDecides(names, req, c, rules);
      assert forall i :: 0 <= i < |rules| && Applies(names, req, rules[i]) ==> rules[i].effect == Allow;
      assert Applies(names, req, rules[0]) <==> req.action == "run.create";
      assert Applies(names, req, rules[1]) <==>
             req.action == "http.request" && names.host(req.target) == "api.anthropic.com";
    }
  }
}
