/**
 Startup validation of the installed admission policies, beside the API server's own reading of
 them: a policy that passes startup is evaluated, fail-closed, on every request it must fence.
 Policies hold expressions as texts. Startup compares them by normal form; the server compiles them
 with a compiler of which nothing is assumed but that it reads the operator's own texts as meant.
 */
module PolicyValidation {
  import opened Common
  import opened Cel
  import opened AuthorityExpressions
  import opened AuthorityTexts
  import opened ExpressionText
  import opened ExpressionSource

  // ---------------------------------------------------------------- installed objects

  datatype ResourceRule = ResourceRule(
    apiGroups: seq<string>,
    apiVersions: seq<string>,
    operations: seq<string>,
    resources: seq<string>,
    resourceNames: seq<string>,
    scope: Option<string>)

  datatype MatchConstraints = MatchConstraints(
    resourceRules: Option<seq<ResourceRule>>,
    excludeResourceRules: seq<ResourceRule>,
    matchPolicy: Option<string>,
    namespaceSelector: Option<string>,
    objectSelector: Option<string>)

  datatype PolicySpec = PolicySpec(
    failurePolicy: Option<string>,
    paramKind: Option<string>,
    matchConditions: seq<string>,
    matchConstraints: Option<MatchConstraints>,
    validations: seq<string>)

  datatype PolicyStatus = PolicyStatus(observedGeneration: Option<int>, accepted: bool, warnings: bool)

  datatype Policy = Policy(
    name: string,
    generation: Option<int>,
    spec: Option<PolicySpec>,
    status: Option<PolicyStatus>)

  datatype BindingSpec = BindingSpec(
    policyName: Option<string>,
    validationActions: Option<seq<string>>,
    matchResources: Option<string>,
    paramRef: Option<string>)

  datatype Binding = Binding(name: string, spec: Option<BindingSpec>)

  datatype AuthorityError = Invalid(control: string) | NotReady(control: string)

  // ---------------------------------------------------------------- the operator's validators

  datatype Coverage = Coverage(group: string, version: string, operations: seq<string>, resources: seq<string>)

  predicate ContainsAll(have: seq<string>, want: seq<string>) {
    forall i :: 0 <= i < |want| ==> want[i] in have
  }

  predicate RuleCovers(rule: ResourceRule, c: Coverage) {
    && rule.apiGroups == [c.group]
    && rule.apiVersions == [c.version]
    && rule.resourceNames == []
    && rule.scope.None?
    && ContainsAll(rule.operations, c.operations)
    && ContainsAll(rule.resources, c.resources)
  }

  predicate Covered(rules: seq<ResourceRule>, c: Coverage) {
    exists i :: 0 <= i < |rules| && RuleCovers(rules[i], c)
  }

  /** The policy holds a text with the same normal form. */
  predicate Lists(validations: seq<string>, text: string) {
    exists j :: 0 <= j < |validations| && Normalize(validations[j]) == Normalize(text)
  }

  const CRUD: seq<string> := [CREATE, UPDATE, DELETE]
  const KOBE_GROUP := "kobe.kunobi.ninja"
  const KOBE_VERSION := "v1alpha1"

  const AUTHORITY_COVERAGE: Coverage :=
    Coverage(KOBE_GROUP, KOBE_VERSION, CRUD,
             [EVIDENCE, LEASES, "clusterleases/status", INSTANCES, "clusterinstances/status"])

  /** The two validators differ only in the control they name and in what they require. */
  function ValidatePolicy(p: Policy, b: Binding, name: string, policyControl: string, bindingControl: string,
                          coverage: seq<Coverage>, required: seq<string>): Result<(), AuthorityError>
  {
    if p.spec.None? || p.spec.value.matchConstraints.None? || p.spec.value.matchConstraints.value.resourceRules.None?
    then Err(Invalid(policyControl))
    else
      var spec := p.spec.value;
      var constraints := spec.matchConstraints.value;
      if p.name != name
         || spec.failurePolicy != Some("Fail")
         || spec.paramKind.Some?
         || spec.matchConditions != []
         || constraints.excludeResourceRules != []
         || constraints.matchPolicy == Some("Exact")
         || constraints.namespaceSelector.Some?
         || constraints.objectSelector.Some?
         || (exists i :: 0 <= i < |coverage| && !Covered(constraints.resourceRules.value, coverage[i]))
         || (exists i :: 0 <= i < |required| && !Lists(spec.validations, required[i]))
      then Err(Invalid(policyControl))
      else if p.generation.None? || p.status.None? then Err(NotReady(policyControl))
      else if p.status.value.observedGeneration != Some(p.generation.value)
              || !p.status.value.accepted || p.status.value.warnings
      then Err(NotReady(policyControl))
      else if b.spec.None? then Err(Invalid(bindingControl))
      else if b.name != name
              || b.spec.value.policyName != Some(name)
              || b.spec.value.validationActions != Some(["Deny"])
              || b.spec.value.matchResources.Some?
              || b.spec.value.paramRef.Some?
      then Err(Invalid(bindingControl))
      else Ok(())
  }

  function ValidateObjects(p: Policy, b: Binding, name: string, user: string): Result<(), AuthorityError> {
    ValidatePolicy(p, b, name, "ValidatingAdmissionPolicy", "ValidatingAdmissionPolicyBinding",
                   [AUTHORITY_COVERAGE], Texts(RequiredExpressions(user)))
  }

  // ---------------------------------------------------------------- what startup accepts

  function Members(xs: seq<string>): set<string> { set x | x in xs }

  /** The rule is about every request inside the line, whatever else it takes in. */
  predicate Spans(rule: ResourceRule, c: Coverage) {
    && rule.apiGroups == [c.group] && rule.apiVersions == [c.version] && rule.resourceNames == [] && rule.scope == None
    && Members(c.operations) <= Members(rule.operations) && Members(c.resources) <= Members(rule.resources)
  }

  /** The policy says what it must, to everybody, and to at least what it must. */
  ghost predicate Sound(p: Policy, name: string, coverage: seq<Coverage>, required: seq<string>) {
    && p.name == name && p.spec.Some? && p.spec.value.matchConstraints.Some?
    && (var spec, constraints := p.spec.value, p.spec.value.matchConstraints.value;
        && spec.failurePolicy == Some("Fail") && spec.paramKind == None && spec.matchConditions == []
        && constraints.excludeResourceRules == [] && constraints.matchPolicy != Some("Exact")
        && constraints.namespaceSelector == None && constraints.objectSelector == None
        && constraints.resourceRules.Some?
        && (forall c :: c in coverage ==> Spanned(constraints.resourceRules.value, c))
        && (forall t :: t in required ==> Said(spec.validations, t)))
  }

  /** The server has taken in this very version of the policy, without a complaint. */
  predicate Observed(p: Policy) {
    && p.generation.Some? && p.status.Some? && p.status.value.observedGeneration == p.generation
    && p.status.value.accepted && !p.status.value.warnings
  }

  /** The binding makes the policy deny, everywhere. */
  predicate Binds(b: Binding, name: string) {
    b == Binding(name, Some(BindingSpec(Some(name), Some(["Deny"]), None, None)))
  }

  lemma RuleCoversIffSpans(rule: ResourceRule, c: Coverage)
    ensures RuleCovers(rule, c) <==> Spans(rule, c)
  {
    assert forall i :: 0 <= i < |c.operations| ==> c.operations[i] in Members(c.operations);
    assert forall i :: 0 <= i < |c.resources| ==> c.resources[i] in Members(c.resources);
  }

  ghost predicate Spanned(rules: seq<ResourceRule>, c: Coverage) { exists rule :: rule in rules && Spans(rule, c) }

  lemma CoveredIffSpanned(rules: seq<ResourceRule>, c: Coverage)
    ensures Covered(rules, c) <==> Spanned(rules, c)
  {
    hide RuleCovers, Spans;
    if Covered(rules, c) {
      var i :| 0 <= i < |rules| && RuleCovers(rules[i], c);
      RuleCoversIffSpans(rules[i], c);
      assert rules[i] in rules && Spans(rules[i], c);
    }
    if Spanned(rules, c) {
      var rule :| rule in rules && Spans(rule, c);
      RuleCoversIffSpans(rule, c);
      var i :| 0 <= i < |rules| && rules[i] == rule;
      assert RuleCovers(rules[i], c);
    }
  }

  /** Some validation is made of the same words. */
  ghost predicate Said(validations: seq<string>, text: string) {
    exists v :: v in validations && Words(v) == Words(text)
  }

  lemma ListsIffSaid(validations: seq<string>, text: string)
    ensures Lists(validations, text) <==> Said(validations, text)
  {
    hide Normalize, Words;
    if Lists(validations, text) {
      var j :| 0 <= j < |validations| && Normalize(validations[j]) == Normalize(text);
      NormalFormIsItsWords(validations[j], text);
      assert validations[j] in validations && Words(validations[j]) == Words(text);
    }
    if Said(validations, text) {
      var v :| v in validations && Words(v) == Words(text);
      NormalFormIsItsWords(v, text);
      var j :| 0 <= j < |validations| && validations[j] == v;
      assert Normalize(validations[j]) == Normalize(text);
    }
  }

  lemma AllCovered(rules: seq<ResourceRule>, coverage: seq<Coverage>)
    ensures (exists i :: 0 <= i < |coverage| && !Covered(rules, coverage[i])) <==>
            !(forall c :: c in coverage ==> Spanned(rules, c))
  {
    hide Covered, Spanned;
    forall i | 0 <= i < |coverage| ensures Covered(rules, coverage[i]) <==> Spanned(rules, coverage[i]) {
      CoveredIffSpanned(rules, coverage[i]);
    }
  }

  lemma AllListed(validations: seq<string>, required: seq<string>)
    ensures (exists i :: 0 <= i < |required| && !Lists(validations, required[i])) <==>
            !(forall t :: t in required ==> Said(validations, t))
  {
    hide Lists, Said;
    forall i | 0 <= i < |required| ensures Lists(validations, required[i]) <==> Said(validations, required[i]) {
      ListsIffSaid(validations, required[i]);
    }
  }

  /** The verdict in full: an unsound policy is blamed first, then one not yet observed, then the binding. */
  lemma Verdict(p: Policy, b: Binding, name: string, pc: string, bc: string, coverage: seq<Coverage>,
                required: seq<string>)
    ensures ValidatePolicy(p, b, name, pc, bc, coverage, required) ==
            if !Sound(p, name, coverage, required) then Err(Invalid(pc))
            else if !Observed(p) then Err(NotReady(pc))
            else if !Binds(b, name) then Err(Invalid(bc))
            else Ok(())
  {
    if p.spec.Some? && p.spec.value.matchConstraints.Some? && p.spec.value.matchConstraints.value.resourceRules.Some? {
      AllCovered(p.spec.value.matchConstraints.value.resourceRules.value, coverage);
      AllListed(p.spec.value.validations, required);
    }
    hide Covered, Lists, Spanned, Said;
  }

  /** A policy that asks for more than another, of more requests. */
  predicate Widens(p: Policy, q: Policy) {
    && p.spec.Some? && p.spec.value.matchConstraints.Some? && p.spec.value.matchConstraints.value.resourceRules.Some?
    && q.spec.Some? && q.spec.value.matchConstraints.Some? && q.spec.value.matchConstraints.value.resourceRules.Some?
    && (var c, d := p.spec.value.matchConstraints.value, q.spec.value.matchConstraints.value;
        && (forall rule :: rule in c.resourceRules.value ==> rule in d.resourceRules.value)
        && (forall v :: v in p.spec.value.validations ==> v in q.spec.value.validations)
        && d.matchPolicy != Some("Exact")
        && q == p.(spec := Some(p.spec.value.(
             validations := q.spec.value.validations,
             matchConstraints := Some(c.(resourceRules := d.resourceRules, matchPolicy := d.matchPolicy))))))
  }

  /** What is accepted stays accepted with more rules, more validations, and an equivalent match policy. */
  lemma WidenedStaysAccepted(p: Policy, q: Policy, b: Binding, name: string, pc: string, bc: string,
                             coverage: seq<Coverage>, required: seq<string>)
    requires ValidatePolicy(p, b, name, pc, bc, coverage, required).Ok? && Widens(p, q)
    ensures ValidatePolicy(q, b, name, pc, bc, coverage, required).Ok?
  {
    Verdict(p, b, name, pc, bc, coverage, required);
    Verdict(q, b, name, pc, bc, coverage, required);
    hide ValidatePolicy, Spans, Words, Binds;
    var c, d := p.spec.value.matchConstraints.value, q.spec.value.matchConstraints.value;
    forall line | line in coverage ensures Spanned(d.resourceRules.value, line) {
      assert Spanned(c.resourceRules.value, line);
    }
    forall t | t in required ensures Said(q.spec.value.validations, t) {
      assert Said(p.spec.value.validations, t);
    }
  }

  /** What the operator asks of its own policy's rules, by name. */
  lemma AuthorityLine(rule: ResourceRule)
    ensures Spans(rule, AUTHORITY_COVERAGE) <==>
            && rule.apiGroups == ["kobe.kunobi.ninja"] && rule.apiVersions == ["v1alpha1"]
            && rule.resourceNames == [] && rule.scope == None
            && "CREATE" in rule.operations && "UPDATE" in rule.operations && "DELETE" in rule.operations
            && "verifiedteardownevidence" in rule.resources
            && "clusterleases" in rule.resources && "clusterleases/status" in rule.resources
            && "clusterinstances" in rule.resources && "clusterinstances/status" in rule.resources
  {
    assert Members(CRUD) == {"CREATE", "UPDATE", "DELETE"};
    assert Members(AUTHORITY_COVERAGE.resources) ==
           {"verifiedteardownevidence", "clusterleases", "clusterleases/status", "clusterinstances",
            "clusterinstances/status"};
  }

  /** Startup's verdict on the authority's policy. */
  lemma StartupVerdict(p: Policy, b: Binding, name: string, user: string)
    ensures ValidateObjects(p, b, name, user) ==
            if !Sound(p, name, [AUTHORITY_COVERAGE], Texts(RequiredExpressions(user)))
            then Err(Invalid("ValidatingAdmissionPolicy"))
            else if !Observed(p) then Err(NotReady("ValidatingAdmissionPolicy"))
            else if !Binds(b, name) then Err(Invalid("ValidatingAdmissionPolicyBinding"))
            else Ok(())
  {
    Verdict(p, b, name, "ValidatingAdmissionPolicy", "ValidatingAdmissionPolicyBinding", [AUTHORITY_COVERAGE],
            Texts(RequiredExpressions(user)));
  }

  // ---------------------------------------------------------------- the API server's reading

  function FullResource(r: Request): string {
    if r.subResource == "" then r.resource else r.resource + "/" + r.subResource
  }

  predicate EntryMatches(entry: string, r: Request) {
    || entry == FullResource(r)
    || entry == "*/*"
    || (entry == "*" && r.subResource == "")
    || (r.subResource != "" && (entry == r.resource + "/*" || entry == "*/" + r.subResource))
  }

  predicate RuleMatches(rule: ResourceRule, r: Request) {
    && (r.group in rule.apiGroups || "*" in rule.apiGroups)
    && (r.version in rule.apiVersions || "*" in rule.apiVersions)
    && (r.operation in rule.operations || "*" in rule.operations)
    && (exists i :: 0 <= i < |rule.resources| && EntryMatches(rule.resources[i], r))
    && (rule.resourceNames == [] || r.name in rule.resourceNames)
    && (rule.scope.None? || rule.scope == Some("*")
        || rule.scope == Some(if r.namespace == "" then "Cluster" else "Namespaced"))
  }

  predicate Narrowed(p: PolicySpec, c: MatchConstraints, b: BindingSpec) {
    || p.paramKind.Some? || p.matchConditions != []
    || c.namespaceSelector.Some? || c.objectSelector.Some?
    || b.matchResources.Some? || b.paramRef.Some?
  }

  /** Whether the server evaluates `p` on `r` and denies on failure. Selectors, match conditions and
      parameters may exempt a request; `exempt` is their verdict, which is arbitrary. */
  predicate Enforced(p: Policy, b: Binding, r: Request, exempt: bool) {
    && p.spec.Some? && p.spec.value.matchConstraints.Some?
    && p.spec.value.matchConstraints.value.resourceRules.Some?
    && b.spec.Some? && b.spec.value.policyName == Some(p.name)
    && b.spec.value.validationActions.Some? && "Deny" in b.spec.value.validationActions.value
    && (var c := p.spec.value.matchConstraints.value;
        && (exists i :: 0 <= i < |c.resourceRules.value| && RuleMatches(c.resourceRules.value[i], r))
        && !(exists i :: 0 <= i < |c.excludeResourceRules| && RuleMatches(c.excludeResourceRules[i], r))
        && !(Narrowed(p.spec.value, c, b.spec.value) && exempt))
  }

  type Compiler = string -> Option<Expr>

  /** A text that fails to compile or evaluate denies unless the policy says to ignore failures. */
  predicate Passes(parse: Compiler, failurePolicy: Option<string>, text: string, r: Request) {
    var e := Compile(parse, text);
    || (e.Some? && Holds(e.value, r))
    || (failurePolicy == Some("Ignore") && !(e.Some? && Eval(e.value, r) == FALSE))
  }

  predicate Admits(parse: Compiler, p: Policy, b: Binding, r: Request, exempt: bool) {
    Enforced(p, b, r, exempt) ==>
      forall i :: 0 <= i < |p.spec.value.validations| ==>
        Passes(parse, p.spec.value.failurePolicy, p.spec.value.validations[i], r)
  }

  /** A request inside one line of required coverage. */
  predicate Within(r: Request, c: Coverage) {
    r.group == c.group && r.version == c.version && r.operation in c.operations && FullResource(r) in c.resources
  }

  lemma CoverageMatches(rule: ResourceRule, c: Coverage, r: Request)
    requires RuleCovers(rule, c) && Within(r, c)
    ensures RuleMatches(rule, r)
  {
    var k :| 0 <= k < |c.resources| && c.resources[k] == FullResource(r);
    var i :| 0 <= i < |rule.resources| && rule.resources[i] == c.resources[k];
    assert EntryMatches(rule.resources[i], r);
    assert rule.apiGroups[0] == r.group && rule.apiVersions[0] == r.version;
    var o :| 0 <= o < |c.operations| && c.operations[o] == r.operation;
  }

  lemma AcceptedIsEnforced(p: Policy, b: Binding, name: string, pc: string, bc: string,
                           coverage: seq<Coverage>, required: seq<string>, r: Request, exempt: bool, k: nat)
    requires ValidatePolicy(p, b, name, pc, bc, coverage, required).Ok?
    requires k < |coverage| && Within(r, coverage[k])
    ensures Enforced(p, b, r, exempt) && p.spec.value.failurePolicy == Some("Fail")
  {
    hide Lists;
    var rules := p.spec.value.matchConstraints.value.resourceRules.value;
    assert Covered(rules, coverage[k]);
    var i :| 0 <= i < |rules| && RuleCovers(rules[i], coverage[k]);
    CoverageMatches(rules[i], coverage[k], r);
    assert "Deny" == b.spec.value.validationActions.value[0];
  }

  /** In place of every required text an accepted policy holds one that compiles and lets the request pass. */
  lemma InstalledTextHolds(parse: Compiler, p: Policy, b: Binding, name: string, pc: string, bc: string,
                           coverage: seq<Coverage>, required: seq<string>, r: Request, exempt: bool, k: nat, i: nat)
    returns (text: string)
    requires ValidatePolicy(p, b, name, pc, bc, coverage, required).Ok?
    requires k < |coverage| && Within(r, coverage[k])
    requires Admits(parse, p, b, r, exempt) && i < |required|
    ensures Normalize(text) == Normalize(required[i])
    ensures Compile(parse, text).Some? && Holds(Compile(parse, text).value, r)
  {
    AcceptedIsEnforced(p, b, name, pc, bc, coverage, required, r, exempt, k);
    var installed := p.spec.value.validations;
    assert Lists(installed, required[i]);
    var v :| 0 <= v < |installed| && Normalize(installed[v]) == Normalize(required[i]);
    assert Passes(parse, p.spec.value.failurePolicy, installed[v], r);
    text := installed[v];
  }

  /** The central step: passing startup means every covered request that gets in satisfies what the
      server reads in every firm required text, whatever else the policy holds. */
  lemma AcceptedPolicyEnforced(parse: Compiler, p: Policy, b: Binding, name: string, pc: string, bc: string,
                               coverage: seq<Coverage>, required: seq<string>, r: Request, exempt: bool, k: nat)
    requires ValidatePolicy(p, b, name, pc, bc, coverage, required).Ok?
    requires k < |coverage| && Within(r, coverage[k])
    requires Admits(parse, p, b, r, exempt)
    requires forall i :: 0 <= i < |required| ==> Firm(required[i])
    ensures forall i :: 0 <= i < |required| ==>
              Compile(parse, required[i]).Some? && Holds(Compile(parse, required[i]).value, r)
  {
    hide ValidatePolicy, Admits, Within, Firm, Normalize;
    forall i | 0 <= i < |required|
      ensures Compile(parse, required[i]).Some? && Holds(Compile(parse, required[i]).value, r)
    {
      var text := InstalledTextHolds(parse, p, b, name, pc, bc, coverage, required, r, exempt, k, i);
      AcceptedTextCompilesAlike(parse, required[i], text);
    }
  }

  /** The same, read as expressions. */
  lemma AcceptedSetEnforced(parse: Compiler, p: Policy, b: Binding, name: string, pc: string, bc: string,
                            coverage: seq<Coverage>, es: seq<Expr>, r: Request, exempt: bool, k: nat)
    requires ValidatePolicy(p, b, name, pc, bc, coverage, Texts(es)).Ok?
    requires k < |coverage| && Within(r, coverage[k])
    requires Admits(parse, p, b, r, exempt) && Reads(parse, es)
    requires forall i :: 0 <= i < |es| ==> Firm(SourceText(es[i]))
    ensures forall e :: e in es ==> Holds(e, r)
  {
    hide ValidatePolicy, Firm, Admits;
    AcceptedPolicyEnforced(parse, p, b, name, pc, bc, coverage, Texts(es), r, exempt, k);
    forall e | e in es ensures Holds(e, r) {
      var i :| 0 <= i < |es| && es[i] == e;
      assert Means(Compile(parse, SourceText(es[i])), es[i]);
      assert Texts(es)[i] == SourceText(es[i]);
    }
  }

  /** A request on one of the proof-bearing resources, as the API server builds it. */
  predicate ProofRequest(r: Request) {
    && r.group == KOBE_GROUP && r.version == KOBE_VERSION
    && (r.operation == CREATE || r.operation == UPDATE || r.operation == DELETE)
    && (r.resource == EVIDENCE || r.resource == LEASES || r.resource == INSTANCES)
    && (r.subResource == "" || (r.subResource == "status" && r.resource != EVIDENCE))
  }

  lemma ProofRequestCovered(r: Request)
    requires ProofRequest(r)
    ensures Within(r, AUTHORITY_COVERAGE)
  {
    assert CRUD[0] == CREATE && CRUD[1] == UPDATE && CRUD[2] == DELETE;
    var rs := AUTHORITY_COVERAGE.resources;
    assert rs[0] == EVIDENCE && rs[1] == LEASES && rs[3] == INSTANCES;
    assert rs[2] == LEASES + "/" + "status" && rs[4] == INSTANCES + "/" + "status";
  }

  /** Every proof-bearing request that gets in satisfies every expression. */
  ghost predicate Enforces(parse: Compiler, p: Policy, b: Binding, es: seq<Expr>) {
    forall r, exempt :: ProofRequest(r) && Admits(parse, p, b, r, exempt) ==> forall e :: e in es ==> Holds(e, r)
  }

  lemma AcceptedEnforces(parse: Compiler, p: Policy, b: Binding, name: string, pc: string, bc: string, es: seq<Expr>)
    requires ValidatePolicy(p, b, name, pc, bc, [AUTHORITY_COVERAGE], Texts(es)).Ok? && Reads(parse, es)
    requires forall i :: 0 <= i < |es| ==> Firm(SourceText(es[i]))
    ensures Enforces(parse, p, b, es)
  {
    hide ValidatePolicy, Reads, Firm, Admits, Within;
    forall r, exempt | ProofRequest(r) && Admits(parse, p, b, r, exempt) ensures forall e :: e in es ==> Holds(e, r) {
      ProofRequestCovered(r);
      AcceptedSetEnforced(parse, p, b, name, pc, bc, [AUTHORITY_COVERAGE], es, r, exempt, 0);
    }
  }

  /** Passing startup makes the required set enforced, when the authority's name holds no raw white space. */
  lemma StartupEnforces(parse: Compiler, p: Policy, b: Binding, name: string, user: string)
    requires ValidateObjects(p, b, name, user).Ok? && NoRawWhite(user) && Reads(parse, RequiredExpressions(user))
    ensures Enforces(parse, p, b, RequiredExpressions(user))
  {
    hide ValidatePolicy, Reads, Firm, Enforces, NoRawWhite, RequiredExpressions;
    var es := RequiredExpressions(user);
    forall i | 0 <= i < |es| ensures Firm(SourceText(es[i])) { RequiredTextsFirm(user, es[i]); }
    AcceptedEnforces(parse, p, b, name, "ValidatingAdmissionPolicy", "ValidatingAdmissionPolicyBinding", es);
  }

  /** The same for a policy that startup's checks accept with the chart's texts. */
  lemma ChartEnforces(parse: Compiler, p: Policy, b: Binding, name: string, pc: string, bc: string,
                      user: string, controlPlane: string)
    requires ValidatePolicy(p, b, name, pc, bc, [AUTHORITY_COVERAGE], Texts(ChartExpressions(user, controlPlane))).Ok?
    requires NoRawWhite(user) && NoRawWhite(controlPlane) && Reads(parse, ChartExpressions(user, controlPlane))
    ensures Enforces(parse, p, b, ChartExpressions(user, controlPlane))
  {
    hide ValidatePolicy, Reads, Firm, Enforces, NoRawWhite, ChartExpressions;
    var es := ChartExpressions(user, controlPlane);
    forall i | 0 <= i < |es| ensures Firm(SourceText(es[i])) { ChartTextsFirm(user, controlPlane, es[i]); }
    AcceptedEnforces(parse, p, b, name, pc, bc, es);
  }

  /** The rule made for one line of coverage. */
  function LineRule(c: Coverage): ResourceRule {
    ResourceRule([c.group], [c.version], c.operations, c.resources, [], None)
  }

  /** The policy built from the required pieces and nothing else. */
  function MinimalPolicy(name: string, coverage: seq<Coverage>, required: seq<string>): Policy {
    var rules := seq(|coverage|, i requires 0 <= i < |coverage| => LineRule(coverage[i]));
    Policy(name, Some(1),
           Some(PolicySpec(Some("Fail"), None, [], Some(MatchConstraints(Some(rules), [], None, None, None)),
               required)),
           Some(PolicyStatus(Some(1), true, false)))
  }

  function MinimalBinding(name: string): Binding {
    Binding(name, Some(BindingSpec(Some(name), Some(["Deny"]), None, None)))
  }

  /** Startup accepts the minimal policy, and any other texts with the required normal forms in it. */
  lemma MinimalPolicyAccepted(name: string, pc: string, bc: string, coverage: seq<Coverage>,
                              required: seq<string>, texts: seq<string>)
    requires forall i :: 0 <= i < |required| ==> Lists(texts, required[i])
    ensures ValidatePolicy(MinimalPolicy(name, coverage, texts), MinimalBinding(name), name, pc, bc, coverage,
        required).Ok?
  {
    hide Lists;
    var rules := MinimalPolicy(name, coverage, texts).spec.value.matchConstraints.value.resourceRules.value;
    forall i | 0 <= i < |coverage| ensures Covered(rules, coverage[i]) {
      assert RuleCovers(rules[i], coverage[i]);
    }
  }

  lemma ListsItself(texts: seq<string>)
    ensures forall i :: 0 <= i < |texts| ==> Lists(texts, texts[i])
  {}

  /** No line of required coverage is dispensable: a policy whose rules leave one uncovered is refused. */
  lemma MissingCoverageRefused(p: Policy, b: Binding, name: string, pc: string, bc: string,
                               coverage: seq<Coverage>, required: seq<string>, i: nat)
    requires i < |coverage|
    requires p.spec.Some? && p.spec.value.matchConstraints.Some? ==>
               var rules := p.spec.value.matchConstraints.value.resourceRules;
               rules.Some? ==> !Covered(rules.value, coverage[i])
    ensures ValidatePolicy(p, b, name, pc, bc, coverage, required) == Err(Invalid(pc))
  {
    hide Lists;
  }

  /** Nor is a required text, on any policy. */
  lemma MissingTextRefused(p: Policy, b: Binding, name: string, pc: string, bc: string,
                           coverage: seq<Coverage>, required: seq<string>, i: nat)
    requires i < |required| && (p.spec.Some? ==> !Lists(p.spec.value.validations, required[i]))
    ensures ValidatePolicy(p, b, name, pc, bc, coverage, required) == Err(Invalid(pc))
  {
    hide Covered;
  }
}
