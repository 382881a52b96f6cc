/**
 The identity firewall. Once startup accepts the contract and the firewall policy, the control plane
 gets no covered request through that reaches the authority's namespace, what lives in it, or
 cluster-scoped RBAC: if its name and the namespace hold no raw white space. Covered are the listed
 resources and subresources; a Deployment's scale is not one. For every name and every request
 `Promised` says exactly what every accepted policy refuses.
 */
module Firewall {
  import opened Common
  import opened Text
  import opened Cel
  import opened AuthorityExpressions
  import opened AuthorityTexts
  import opened ExpressionText
  import opened ExpressionSource
  import opened NameVariants
  import opened PolicyValidation

  // ---------------------------------------------------------------- identities

  const ACCOUNT_PREFIX := "system:serviceaccount:"

  function FirstColon(s: string): (n: nat)
    ensures n <= |s| && ':' !in s[..n]
    ensures n < |s| ==> s[n] == ':'
  {
    if s == "" || s[0] == ':' then 0
    else
      var n := 1 + FirstColon(s[1..]);
      assert s[..n] == [s[0]] + s[1..][..n - 1];
      n
  }

  function ServiceAccountIdentity(username: string): Option<(string, string)> {
    if !(ACCOUNT_PREFIX <= username) then None
    else
      var suffix := username[|ACCOUNT_PREFIX|..];
      var n := FirstColon(suffix);
      if n == |suffix| then None
      else
        var namespace, name := suffix[..n], suffix[n + 1..];
        if namespace != "" && name != "" && ':' !in name then Some((namespace, name)) else None
  }

  function FormatIdentity(namespace: string, name: string): string {
    "system:serviceaccount:" + namespace + ":" + name
  }

  lemma FormattedParses(namespace: string, name: string)
    requires namespace != "" && name != "" && ':' !in namespace && ':' !in name
    ensures ServiceAccountIdentity(FormatIdentity(namespace, name)) == Some((namespace, name))
  {
    var username := FormatIdentity(namespace, name);
    var suffix := namespace + ":" + name;
    assert username == ACCOUNT_PREFIX + suffix;
    assert ACCOUNT_PREFIX <= username && username[|ACCOUNT_PREFIX|..] == suffix;
    FirstColonAfter(namespace, name);
    assert suffix[..|namespace|] == namespace && suffix[|namespace| + 1..] == name;
  }

  lemma ParsedFormats(username: string)
    requires ServiceAccountIdentity(username).Some?
    ensures var (namespace, name) := ServiceAccountIdentity(username).value;
            && username == FormatIdentity(namespace, name)
            && namespace != "" && name != "" && ':' !in namespace && ':' !in name
  {
    var suffix := username[|ACCOUNT_PREFIX|..];
    var n := FirstColon(suffix);
    assert username == ACCOUNT_PREFIX + suffix;
    assert suffix == suffix[..n] + ":" + suffix[n + 1..];
  }

  /** Parsing is the exact inverse of formatting a colon-free, non-empty namespace and name. */
  lemma IdentityRoundTrip(username: string, namespace: string, name: string)
    ensures ServiceAccountIdentity(username) == Some((namespace, name)) <==>
            && username == FormatIdentity(namespace, name)
            && namespace != "" && name != "" && ':' !in namespace && ':' !in name
  {
    if ServiceAccountIdentity(username) == Some((namespace, name)) {
      ParsedFormats(username);
    }
    if namespace != "" && name != "" && ':' !in namespace && ':' !in name {
      FormattedParses(namespace, name);
    }
  }

  lemma FirstColonAfter(namespace: string, name: string)
    requires ':' !in namespace
    ensures FirstColon(namespace + ":" + name) == |namespace|
  {
    var s := namespace + ":" + name;
    var n := FirstColon(s);
    assert s[|namespace|] == ':';
    assert forall i :: 0 <= i < |namespace| ==> s[i] == namespace[i];
    assert forall i :: 0 <= i < n ==> s[..n][i] == s[i];
  }

  function ValidateIdentityContract(policy: string, firewall: string, authority: string, controlPlane: string,
                                    namespace: string): Result<(), AuthorityError>
  {
    var a, c := ServiceAccountIdentity(authority), ServiceAccountIdentity(controlPlane);
    if Blank(namespace) || Blank(policy) || Blank(firewall)
       || a.None? || a.value.0 != namespace
       || c.None? || c.value.0 == namespace
       || authority == controlPlane || policy == firewall
    then Err(Invalid("ServiceAccount username")) else Ok(())
  }

  predicate AccountParts(namespace: string, name: string) {
    namespace != "" && name != "" && ':' !in namespace && ':' !in name
  }

  ghost predicate AccountIn(username: string, namespace: string) {
    exists name :: AccountParts(namespace, name) && username == FormatIdentity(namespace, name)
  }

  /** The contract, without the parser: the authority is an account of its namespace, the control
      plane an account of some other one. */
  lemma ContractMeaning(policy: string, firewall: string, authority: string, controlPlane: string, namespace: string)
    ensures ValidateIdentityContract(policy, firewall, authority, controlPlane, namespace).Ok? <==>
            && !Blank(namespace) && !Blank(policy) && !Blank(firewall) && policy != firewall
            && AccountIn(authority, namespace)
            && exists other :: other != namespace && AccountIn(controlPlane, other)
  {
    AccountMeaning(authority);
    AccountMeaning(controlPlane);
  }

  lemma AccountMeaning(username: string)
    ensures ServiceAccountIdentity(username).Some? ==> AccountIn(username, ServiceAccountIdentity(username).value.0)
    ensures forall namespace :: AccountIn(username, namespace) ==>
              ServiceAccountIdentity(username).Some? && ServiceAccountIdentity(username).value.0 == namespace
  {
    if ServiceAccountIdentity(username).Some? {
      var (namespace, name) := ServiceAccountIdentity(username).value;
      IdentityRoundTrip(username, namespace, name);
      assert AccountParts(namespace, name);
    }
    forall namespace | AccountIn(username, namespace)
      ensures ServiceAccountIdentity(username).Some? && ServiceAccountIdentity(username).value.0 == namespace
    {
      var name :| AccountParts(namespace, name) && username == FormatIdentity(namespace, name);
      IdentityRoundTrip(username, namespace, name);
    }
  }

  // ---------------------------------------------------------------- the firewall policy

  const RBAC_GROUP := "rbac.authorization" + ".k8s.io"
  const NAMESPACES := "namespaces"
  const CLUSTER_ROLES := "clusterroles"
  const CLUSTER_ROLE_BINDINGS := "clusterrolebindings"

  const FIREWALL_COVERAGE: seq<Coverage> := [
    Coverage("", "v1", CRUD, ["configmaps", "endpoints", "events", "persistentvolumeclaims",
                              "replicationcontrollers", "secrets", "serviceaccounts", "serviceaccounts/token",
                              "services", "pods", "pods/status", "pods/ephemeralcontainers"]),
    Coverage("", "v1", ["CONNECT"], ["pods/exec", "pods/attach", "pods/portforward"]),
    Coverage("apps", "v1", CRUD, ["deployments", "replicasets", "statefulsets", "daemonsets"]),
    Coverage("batch", "v1", CRUD, ["jobs", "jobs/status", "cronjobs"]),
    Coverage("networking.k8s.io", "v1", CRUD, ["ingresses", "networkpolicies"]),
    Coverage("policy", "v1", CRUD, ["poddisruptionbudgets"]),
    Coverage("coordination.k8s.io", "v1", CRUD, ["leases"]),
    Coverage(RBAC_GROUP, "v1", CRUD, ["roles", "rolebindings"]),
    Coverage("", "v1", CRUD, [NAMESPACES]),
    Coverage(RBAC_GROUP, "v1", CRUD, [CLUSTER_ROLES, CLUSTER_ROLE_BINDINGS])]

  function ClusterScoped(): Expr {
    In(Attr(Resource), Lit(List([Str(NAMESPACES), Str(CLUSTER_ROLES), Str(CLUSTER_ROLE_BINDINGS)])))
  }

  function OutsideNamespace(user: string, namespace: string): Expr {
    Or(Or(IsNot(Username, user), ClusterScoped()), IsNot(Namespace, namespace))
  }

  function NotTheNamespace(user: string, namespace: string): Expr {
    Or(Or(IsNot(Username, user), IsNot(Resource, NAMESPACES)), IsNot(Name, namespace))
  }

  function NotClusterRbac(user: string): Expr {
    Or(Or(IsNot(Username, user), IsNot(Group, RBAC_GROUP)),
       Not(In(Attr(Resource), Lit(List([Str(CLUSTER_ROLES), Str(CLUSTER_ROLE_BINDINGS)])))))
  }

  function FirewallExpressions(user: string, namespace: string): seq<Expr> {
    [OutsideNamespace(user, namespace), NotTheNamespace(user, namespace), NotClusterRbac(user)]
  }

  function ValidateFirewallObjects(p: Policy, b: Binding, name: string, controlPlane: string, namespace: string)
    : Result<(), AuthorityError>
  {
    ValidatePolicy(p, b, name, "identity firewall policy", "identity firewall binding",
                   FIREWALL_COVERAGE, Texts(FirewallExpressions(controlPlane, namespace)))
  }

  // ---------------------------------------------------------------- meaning

  predicate ClusterKind(resource: string) {
    resource == NAMESPACES || resource == CLUSTER_ROLES || resource == CLUSTER_ROLE_BINDINGS
  }

  /** What the firewall forbids the control plane: the authority's namespace and everything in it,
      and cluster-scoped RBAC. A request that omits the attribute a rule reads is forbidden too. */
  predicate Forbidden(r: Request, namespace: string) {
    || (!ClusterKind(r.resource) && (r.namespace == "" || r.namespace == namespace))
    || (r.resource == NAMESPACES && (r.name == "" || r.name == namespace))
    || (r.group == RBAC_GROUP && (r.resource == CLUSTER_ROLES || r.resource == CLUSTER_ROLE_BINDINGS))
  }

  lemma AnyOf3(a: Expr, b: Expr, c: Expr, r: Request)
    ensures Holds(Or(Or(a, b), c), r) <==> Holds(a, r) || Holds(b, r) || Holds(c, r)
  {
    assert Eval(Or(a, b), r) == OrElse(Eval(a, r), Eval(b, r));
  }

  lemma OutsideNamespaceMeaning(user: string, namespace: string, r: Request)
    ensures Holds(OutsideNamespace(user, namespace), r) <==>
            r.user != user || ClusterKind(r.resource) || (r.namespace != "" && r.namespace != namespace)
  {
    AttributeMeaning(Username, user, r);
    AttributeMeaning(Namespace, namespace, r);
    var kinds := Lit(List([Str(NAMESPACES), Str(CLUSTER_ROLES), Str(CLUSTER_ROLE_BINDINGS)]));
    assert Eval(kinds, r) == Val(List([Str(NAMESPACES), Str(CLUSTER_ROLES), Str(CLUSTER_ROLE_BINDINGS)]));
    assert Eval(Attr(Resource), r) == Val(Str(r.resource));
    AnyOf3(IsNot(Username, user), ClusterScoped(), IsNot(Namespace, namespace), r);
  }

  lemma NotTheNamespaceMeaning(user: string, namespace: string, r: Request)
    ensures Holds(NotTheNamespace(user, namespace), r) <==>
            r.user != user || r.resource != NAMESPACES || (r.name != "" && r.name != namespace)
  {
    AttributeMeaning(Username, user, r);
    AttributeMeaning(Name, namespace, r);
    AttributeMeaning(Resource, NAMESPACES, r);
    AnyOf3(IsNot(Username, user), IsNot(Resource, NAMESPACES), IsNot(Name, namespace), r);
  }

  lemma NotClusterRbacMeaning(user: string, r: Request)
    ensures Holds(NotClusterRbac(user), r) <==>
            || r.user != user || r.group != RBAC_GROUP
            || (r.resource != CLUSTER_ROLES && r.resource != CLUSTER_ROLE_BINDINGS)
  {
    AttributeMeaning(Username, user, r);
    AttributeMeaning(Group, RBAC_GROUP, r);
    var roles := Lit(List([Str(CLUSTER_ROLES), Str(CLUSTER_ROLE_BINDINGS)]));
    var listed := In(Attr(Resource), roles);
    assert Eval(roles, r) == Val(List([Str(CLUSTER_ROLES), Str(CLUSTER_ROLE_BINDINGS)]));
    assert Eval(Attr(Resource), r) == Val(Str(r.resource));
    assert Eval(Not(listed), r) == Negate(Eval(listed, r));
    AnyOf3(IsNot(Username, user), IsNot(Group, RBAC_GROUP), Not(listed), r);
  }

  /** The three expressions together refuse exactly the control plane's forbidden requests, and
      nobody else's: in particular none of the authority's own. */
  lemma FirewallMeaning(user: string, namespace: string, r: Request)
    ensures (forall e :: e in FirewallExpressions(user, namespace) ==> Holds(e, r)) <==>
            r.user != user || !Forbidden(r, namespace)
  {
    var es := FirewallExpressions(user, namespace);
    assert (forall e :: e in es ==> Holds(e, r)) <==> Holds(es[0], r) && Holds(es[1], r) && Holds(es[2], r);
    OutsideNamespaceMeaning(user, namespace, r);
    NotTheNamespaceMeaning(user, namespace, r);
    NotClusterRbacMeaning(user, r);
  }

  // ---------------------------------------------------------------- the texts

  lemma FirewallLiterals()
    ensures LiteralText(NAMESPACES) && LiteralText(CLUSTER_ROLES) && LiteralText(CLUSTER_ROLE_BINDINGS)
    ensures LiteralText(RBAC_GROUP)
  {
    hide LiteralText;
    ClusterLiterals();
    GroupLiteral();
  }

  lemma ClusterLiterals()
    ensures LiteralText(NAMESPACES) && LiteralText(CLUSTER_ROLES) && LiteralText(CLUSTER_ROLE_BINDINGS)
  {}

  lemma GroupLiteral()
    ensures LiteralText(RBAC_GROUP)
  {
    assert LiteralText("rbac.authorization");
    assert LiteralText(".k8s.io");
    hide LiteralText;
    LiteralAppend("rbac.authorization", ".k8s.io");
  }

  lemma ClusterScopedWrites(names: set<string>)
    ensures Writes(ClusterScoped(), names)
  {
    FirewallLiterals();
    hide LiteralText;
    var kinds := List([Str(NAMESPACES), Str(CLUSTER_ROLES), Str(CLUSTER_ROLE_BINDINGS)]);
    assert WritesValue(kinds, false, names);
    assert Writes(Attr(Resource), names) && Writes(Lit(kinds), names);
  }

  lemma FirewallWrites(user: string, namespace: string, e: Expr)
    requires e in FirewallExpressions(user, namespace)
    ensures Writes(e, {user, namespace})
  {
    var names := {user, namespace};
    FirewallLiterals();
    hide LiteralText, Writes;
    IsWrites(Username, user, names);
    IsWrites(Namespace, namespace, names);
    IsWrites(Name, namespace, names);
    IsWrites(Resource, NAMESPACES, names);
    IsWrites(Group, RBAC_GROUP, names);
    ClusterScopedWrites(names);
    ListWrites(Resource, CLUSTER_ROLES, CLUSTER_ROLE_BINDINGS, names);
    hide Is, IsNot, ClusterScoped;
    var roles := Not(In(Attr(Resource), Lit(List([Str(CLUSTER_ROLES), Str(CLUSTER_ROLE_BINDINGS)]))));
    var a := IsNot(Username, user);
    Any4Writes(a, ClusterScoped(), IsNot(Namespace, namespace), a, names);
    Any4Writes(a, IsNot(Resource, NAMESPACES), IsNot(Name, namespace), a, names);
    Any4Writes(a, IsNot(Group, RBAC_GROUP), roles, a, names);
  }

  lemma FirewallTextsFirm(user: string, namespace: string, e: Expr)
    requires NoRawWhite(user) && NoRawWhite(namespace) && e in FirewallExpressions(user, namespace)
    ensures Firm(SourceText(e))
  {
    hide Writes, Firm, NoRawWhite;
    FirewallWrites(user, namespace, e);
    SourceTextIsFirm(e, {user, namespace});
  }

  // ---------------------------------------------------------------- what is refused

  const CHANGES := {"CREATE", "UPDATE", "DELETE"}
  const CORE_KINDS := {"configmaps", "endpoints", "events", "persistentvolumeclaims", "replicationcontrollers",
                       "secrets", "serviceaccounts", "serviceaccounts/token", "services", "pods", "pods/status",
                       "pods/ephemeralcontainers"}
  const POD_CONNECTIONS := {"pods/exec", "pods/attach", "pods/portforward"}
  const WORKLOADS := {"deployments", "replicasets", "statefulsets", "daemonsets"}
  const JOBS := {"jobs", "jobs/status", "cronjobs"}
  const NETWORK_KINDS := {"ingresses", "networkpolicies"}
  const ROLES := {"roles", "rolebindings"}
  const CLUSTER_RBAC := {"clusterroles", "clusterrolebindings"}

  /** What the firewall covers, by name. */
  predicate CoveredKind(group: string, operation: string, resource: string) {
    || (group == "" && operation == "CONNECT" && resource in POD_CONNECTIONS)
    || (&& operation in CHANGES
        && (|| (group == "" && (resource in CORE_KINDS || resource == "namespaces"))
            || (group == "apps" && resource in WORKLOADS)
            || (group == "batch" && resource in JOBS)
            || (group == "networking.k8s.io" && resource in NETWORK_KINDS)
            || (group == "policy" && resource == "poddisruptionbudgets")
            || (group == "coordination.k8s.io" && resource == "leases")
            || (group == "rbac.authorization.k8s.io" && (resource in ROLES || resource in CLUSTER_RBAC))))
  }

  /** A request on a covered resource, operation and API version. */
  predicate FirewallRequest(r: Request) {
    r.version == "v1" && CoveredKind(r.group, r.operation, FullResource(r))
  }

  /** One line of coverage, read as sets. */
  predicate LineIs(c: Coverage, group: string, operations: set<string>, resources: set<string>) {
    c.group == group && c.version == "v1" && Members(c.operations) == operations && Members(c.resources) == resources
  }

  lemma RbacGroup()
    ensures RBAC_GROUP == "rbac.authorization.k8s.io"
  {}

  lemma CoreLine()
    ensures LineIs(FIREWALL_COVERAGE[0], "", CHANGES, CORE_KINDS)
  {}

  lemma OtherLines()
    ensures LineIs(FIREWALL_COVERAGE[1], "", {"CONNECT"}, POD_CONNECTIONS)
    ensures LineIs(FIREWALL_COVERAGE[2], "apps", CHANGES, WORKLOADS)
    ensures LineIs(FIREWALL_COVERAGE[3], "batch", CHANGES, JOBS)
    ensures LineIs(FIREWALL_COVERAGE[4], "networking.k8s.io", CHANGES, NETWORK_KINDS)
    ensures LineIs(FIREWALL_COVERAGE[5], "policy", CHANGES, {"poddisruptionbudgets"})
    ensures LineIs(FIREWALL_COVERAGE[6], "coordination.k8s.io", CHANGES, {"leases"})
    ensures LineIs(FIREWALL_COVERAGE[7], RBAC_GROUP, CHANGES, ROLES)
    ensures LineIs(FIREWALL_COVERAGE[8], "", CHANGES, {"namespaces"})
    ensures LineIs(FIREWALL_COVERAGE[9], RBAC_GROUP, CHANGES, CLUSTER_RBAC)
  {}

  predicate InLine(r: Request, group: string, operations: set<string>, resources: set<string>) {
    r.group == group && r.version == "v1" && r.operation in operations && FullResource(r) in resources
  }

  lemma WithinLine(r: Request, c: Coverage, group: string, operations: set<string>, resources: set<string>)
    requires LineIs(c, group, operations, resources)
    ensures Within(r, c) <==> InLine(r, group, operations, resources)
  {}

  lemma CoveredByLine(r: Request)
    ensures FirewallRequest(r) <==>
            || InLine(r, "", CHANGES, CORE_KINDS) || InLine(r, "", {"CONNECT"}, POD_CONNECTIONS)
            || InLine(r, "apps", CHANGES, WORKLOADS) || InLine(r, "batch", CHANGES, JOBS)
            || InLine(r, "networking.k8s.io", CHANGES, NETWORK_KINDS)
            || InLine(r, "policy", CHANGES, {"poddisruptionbudgets"})
            || InLine(r, "coordination.k8s.io", CHANGES, {"leases"}) || InLine(r, RBAC_GROUP, CHANGES, ROLES)
            || InLine(r, "", CHANGES, {"namespaces"}) || InLine(r, RBAC_GROUP, CHANGES, CLUSTER_RBAC)
  {
    RbacGroup();
    hide CORE_KINDS, POD_CONNECTIONS, WORKLOADS, JOBS, NETWORK_KINDS, ROLES, CLUSTER_RBAC, CHANGES, RBAC_GROUP,
         FullResource;
  }

  /** The operator's coverage is exactly what the names say. */
  lemma CoveredIffListed(r: Request)
    ensures FirewallRequest(r) <==> exists i :: 0 <= i < |FIREWALL_COVERAGE| && Within(r, FIREWALL_COVERAGE[i])
  {
    CoreLine();
    OtherLines();
    CoveredByLine(r);
    assert |FIREWALL_COVERAGE| == 10;
    hide FIREWALL_COVERAGE, LineIs, Within, InLine, FirewallRequest, CORE_KINDS, POD_CONNECTIONS, WORKLOADS, JOBS,
         NETWORK_KINDS, ROLES, CLUSTER_RBAC, CHANGES, RBAC_GROUP;
    var cs := FIREWALL_COVERAGE;
    WithinLine(r, cs[0], "", CHANGES, CORE_KINDS);
    WithinLine(r, cs[1], "", {"CONNECT"}, POD_CONNECTIONS);
    WithinLine(r, cs[2], "apps", CHANGES, WORKLOADS);
    WithinLine(r, cs[3], "batch", CHANGES, JOBS);
    WithinLine(r, cs[4], "networking.k8s.io", CHANGES, NETWORK_KINDS);
    WithinLine(r, cs[5], "policy", CHANGES, {"poddisruptionbudgets"});
    WithinLine(r, cs[6], "coordination.k8s.io", CHANGES, {"leases"});
    WithinLine(r, cs[7], RBAC_GROUP, CHANGES, ROLES);
    WithinLine(r, cs[8], "", CHANGES, {"namespaces"});
    WithinLine(r, cs[9], RBAC_GROUP, CHANGES, CLUSTER_RBAC);
    WithinTen(r, cs);
  }

  lemma WithinTen(r: Request, cs: seq<Coverage>)
    requires |cs| == 10
    ensures (exists i :: 0 <= i < |cs| && Within(r, cs[i])) <==>
            || Within(r, cs[0]) || Within(r, cs[1]) || Within(r, cs[2]) || Within(r, cs[3]) || Within(r, cs[4])
            || Within(r, cs[5]) || Within(r, cs[6]) || Within(r, cs[7]) || Within(r, cs[8]) || Within(r, cs[9])
  {
    hide Within;
  }

  /** Forbidden whatever the namespace is called: a rule cannot read what it needs, or cluster RBAC. */
  predicate ForbiddenUnderAnyName(r: Request) {
    || (!ClusterKind(r.resource) && r.namespace == "")
    || (r.resource == NAMESPACES && r.name == "")
    || (r.group == RBAC_GROUP && (r.resource == CLUSTER_ROLES || r.resource == CLUSTER_ROLE_BINDINGS))
  }

  /** What the firewall promises to refuse the control plane, for all names. */
  predicate Promised(r: Request, controlPlane: string, namespace: string) {
    && NoRawWhite(controlPlane) && FirewallRequest(r)
    && if NoRawWhite(namespace) then Forbidden(r, namespace) else ForbiddenUnderAnyName(r)
  }

  /** Some rule spans the group's resources for the operations. */
  ghost predicate Asked(rules: seq<ResourceRule>, group: string, operations: set<string>, resources: set<string>) {
    exists rule ::
      && rule in rules && rule.apiGroups == [group] && rule.apiVersions == ["v1"]
      && rule.resourceNames == [] && rule.scope == None
      && operations <= Members(rule.operations) && resources <= Members(rule.resources)
  }

  lemma SpannedIffAsked(rules: seq<ResourceRule>, c: Coverage, group: string, operations: set<string>,
                        resources: set<string>)
    requires LineIs(c, group, operations, resources)
    ensures Spanned(rules, c) <==> Asked(rules, group, operations, resources)
  {}

  /** The rules an accepted firewall policy must have, by name; each line takes a rule of its own. */
  lemma FirewallLines(rules: seq<ResourceRule>)
    ensures (forall c :: c in FIREWALL_COVERAGE ==> Spanned(rules, c)) <==>
            && Asked(rules, "", CHANGES, CORE_KINDS) && Asked(rules, "", {"CONNECT"}, POD_CONNECTIONS)
            && Asked(rules, "apps", CHANGES, WORKLOADS) && Asked(rules, "batch", CHANGES, JOBS)
            && Asked(rules, "networking.k8s.io", CHANGES, NETWORK_KINDS)
            && Asked(rules, "policy", CHANGES, {"poddisruptionbudgets"})
            && Asked(rules, "coordination.k8s.io", CHANGES, {"leases"})
            && Asked(rules, "rbac.authorization.k8s.io", CHANGES, ROLES) && Asked(rules, "", CHANGES, {"namespaces"})
            && Asked(rules, "rbac.authorization.k8s.io", CHANGES, CLUSTER_RBAC)
  {
    RbacGroup();
    CoreLine();
    OtherLines();
    assert |FIREWALL_COVERAGE| == 10;
    hide FIREWALL_COVERAGE, LineIs, Spanned, Asked, CORE_KINDS, POD_CONNECTIONS, WORKLOADS, JOBS, NETWORK_KINDS, ROLES,
         CLUSTER_RBAC, CHANGES, RBAC_GROUP;
    var cs := FIREWALL_COVERAGE;
    SpannedIffAsked(rules, cs[0], "", CHANGES, CORE_KINDS);
    SpannedIffAsked(rules, cs[1], "", {"CONNECT"}, POD_CONNECTIONS);
    SpannedIffAsked(rules, cs[2], "apps", CHANGES, WORKLOADS);
    SpannedIffAsked(rules, cs[3], "batch", CHANGES, JOBS);
    SpannedIffAsked(rules, cs[4], "networking.k8s.io", CHANGES, NETWORK_KINDS);
    SpannedIffAsked(rules, cs[5], "policy", CHANGES, {"poddisruptionbudgets"});
    SpannedIffAsked(rules, cs[6], "coordination.k8s.io", CHANGES, {"leases"});
    SpannedIffAsked(rules, cs[7], RBAC_GROUP, CHANGES, ROLES);
    SpannedIffAsked(rules, cs[8], "", CHANGES, {"namespaces"});
    SpannedIffAsked(rules, cs[9], RBAC_GROUP, CHANGES, CLUSTER_RBAC);
    TenLines(rules, cs);
  }

  lemma TenLines(rules: seq<ResourceRule>, cs: seq<Coverage>)
    requires |cs| == 10
    ensures (forall c :: c in cs ==> Spanned(rules, c)) <==>
            && Spanned(rules, cs[0]) && Spanned(rules, cs[1]) && Spanned(rules, cs[2]) && Spanned(rules, cs[3])
            && Spanned(rules, cs[4]) && Spanned(rules, cs[5]) && Spanned(rules, cs[6]) && Spanned(rules, cs[7])
            && Spanned(rules, cs[8]) && Spanned(rules, cs[9])
  {
    hide Spanned;
  }

  /** Startup's verdict on the firewall policy. */
  lemma FirewallVerdict(p: Policy, b: Binding, name: string, controlPlane: string, namespace: string)
    ensures ValidateFirewallObjects(p, b, name, controlPlane, namespace) ==
            if !Sound(p, name, FIREWALL_COVERAGE, Texts(FirewallExpressions(controlPlane, namespace)))
            then Err(Invalid("identity firewall policy"))
            else if !Observed(p) then Err(NotReady("identity firewall policy"))
            else if !Binds(b, name) then Err(Invalid("identity firewall binding"))
            else Ok(())
  {
    hide Sound, Observed, Binds, ValidatePolicy, FIREWALL_COVERAGE, FirewallExpressions;
    Verdict(p, b, name, "identity firewall policy", "identity firewall binding", FIREWALL_COVERAGE,
            Texts(FirewallExpressions(controlPlane, namespace)));
  }

  // ---- how the texts hold their names

  function UserHead(): seq<Token> { [Bare(Path(Username))] + Infix("!=") }

  function UserRest(a: Expr, b: Expr): seq<Token> { Infix("||") + SecondOperand(a) + Infix("||") + SecondOperand(b) }

  /** A rule of the firewall. */
  function UserRule(user: string, a: Expr, b: Expr): Expr { Or(Or(IsNot(Username, user), a), b) }

  lemma UserRuleTokens(user: string, a: Expr, b: Expr)
    ensures Tokens(UserRule(user, a, b)) == UserHead() + [Json(user)] + UserRest(a, b)
  {
    var x := IsNot(Username, user);
    NameTokens(Username, user);
    DisjunctionTokens(x, a);
    DisjunctionTokens(Or(x, a), b);
    hide Tokens, SecondOperand, Infix, Path;
    ConcatRegrouped(UserHead() + [Json(user)], Infix("||"), SecondOperand(a), Infix("||"), SecondOperand(b));
  }

  lemma UserRuleReadsAlike(user: string, i: nat, a: Expr, b: Expr)
    requires i < |user| && RawWhite(user[i])
    ensures Normalize(SourceText(UserRule(Doubled(user, i), a, b))) == Normalize(SourceText(UserRule(user, a, b)))
  {
    hide Tokens, UserHead, UserRest, UserRule, Normalize, Render, Doubled, RawWhite;
    UserRuleTokens(user, a, b);
    UserRuleTokens(Doubled(user, i), a, b);
    RespelledReadsAlike(UserHead(), user, i, UserRest(a, b));
  }

  /** The text of a rule up to the name it ends with. */
  function NameHead(user: string, a: Expr, attr: Attribute): seq<Token> {
    UserHead() + [Json(user)] + (Infix("||") + SecondOperand(a) + Infix("||") + ([Bare(Path(attr))] + Infix("!=")))
  }

  lemma NameRuleTokens(user: string, a: Expr, attr: Attribute, name: string)
    requires Named(Attr(attr))
    ensures Tokens(UserRule(user, a, IsNot(attr, name))) == NameHead(user, a, attr) + [Json(name)]
  {
    var y := IsNot(attr, name);
    UserRuleTokens(user, a, y);
    NameTokens(attr, name);
    assert SecondOperand(y) == Tokens(y);
    hide Tokens, SecondOperand, Infix, Path, UserHead, UserRule;
    var head, path := Infix("||") + SecondOperand(a) + Infix("||"), [Bare(Path(attr))] + Infix("!=");
    ConcatAssociative(head, path, [Json(name)]);
    ConcatAssociative(UserHead() + [Json(user)], head + path, [Json(name)]);
  }

  lemma NameRuleReadsAlike(user: string, a: Expr, attr: Attribute, name: string, i: nat)
    requires Named(Attr(attr)) && i < |name| && RawWhite(name[i])
    ensures Normalize(SourceText(UserRule(user, a, IsNot(attr, Doubled(name, i))))) ==
            Normalize(SourceText(UserRule(user, a, IsNot(attr, name))))
  {
    hide Tokens, NameHead, UserRule, Normalize, Render, Doubled, RawWhite, IsNot;
    NameRuleTokens(user, a, attr, name);
    NameRuleTokens(user, a, attr, Doubled(name, i));
    var head, other := NameHead(user, a, attr), Doubled(name, i);
    assert head + [Json(name)] + [] == head + [Json(name)] && head + [Json(other)] + [] == head + [Json(other)];
    RespelledReadsAlike(head, name, i, []);
  }

  function ClusterRoles(): Expr {
    Not(In(Attr(Resource), Lit(List([Str(CLUSTER_ROLES), Str(CLUSTER_ROLE_BINDINGS)]))))
  }

  lemma FirewallRules(user: string, namespace: string)
    ensures FirewallExpressions(user, namespace) ==
            [UserRule(user, ClusterScoped(), IsNot(Namespace, namespace)),
             UserRule(user, IsNot(Resource, NAMESPACES), IsNot(Name, namespace)),
             UserRule(user, IsNot(Group, RBAC_GROUP), ClusterRoles())]
  {}

  predicate ReadAlike(user: string, namespace: string, user': string, namespace': string) {
    var texts, texts' := Texts(FirewallExpressions(user, namespace)), Texts(FirewallExpressions(user', namespace'));
    |texts'| == |texts| && forall k :: 0 <= k < |texts| ==> Normalize(texts'[k]) == Normalize(texts[k])
  }

  /** Startup reads the firewall's texts alike when a name repeats its white space. */
  lemma FirewallReadsAlike(user: string, namespace: string, i: nat)
    ensures i < |user| && RawWhite(user[i]) ==> ReadAlike(user, namespace, Doubled(user, i), namespace)
    ensures i < |namespace| && RawWhite(namespace[i]) ==> ReadAlike(user, namespace, user, Doubled(namespace, i))
  {
    FirewallRules(user, namespace);
    hide FirewallExpressions, UserRule, Normalize, SourceText, Doubled, RawWhite, IsNot, ClusterScoped, ClusterRoles;
    if i < |user| && RawWhite(user[i]) {
      FirewallRules(Doubled(user, i), namespace);
      UserRuleReadsAlike(user, i, ClusterScoped(), IsNot(Namespace, namespace));
      UserRuleReadsAlike(user, i, IsNot(Resource, NAMESPACES), IsNot(Name, namespace));
      UserRuleReadsAlike(user, i, IsNot(Group, RBAC_GROUP), ClusterRoles());
    }
    if i < |namespace| && RawWhite(namespace[i]) {
      FirewallRules(user, Doubled(namespace, i));
      NameRuleReadsAlike(user, ClusterScoped(), Namespace, namespace, i);
      NameRuleReadsAlike(user, IsNot(Resource, NAMESPACES), Name, namespace, i);
    }
  }

  // ---- the compiler

  /** The operator's text up to its last literal, with any literal there, compiles if at all to the
      expression with some name. */
  ghost predicate ReadsEnding(parse: Compiler, pre: string, e: string -> Expr) {
    forall body :: Closable(body) && Compile(parse, pre + Enclosed(body)).Some? ==>
      exists name :: Means(Compile(parse, pre + Enclosed(body)), e(name))
  }

  function OutsideText(user: string): string { Render(NameHead(user, ClusterScoped(), Namespace)) }
  function NamespaceText(user: string): string { Render(NameHead(user, IsNot(Resource, NAMESPACES), Name)) }

  /** A compiler that reads the firewall's texts as meant, for every name and every last literal. */
  ghost predicate FirewallReader(parse: Compiler, controlPlane: string) {
    && (forall user, namespace :: Reads(parse, FirewallExpressions(user, namespace)))
    && ReadsEnding(parse, OutsideText(controlPlane), namespace => OutsideNamespace(controlPlane, namespace))
    && ReadsEnding(parse, NamespaceText(controlPlane), namespace => NotTheNamespace(controlPlane, namespace))
  }

  lemma {:induction false} FitPrefix(a: seq<Token>, b: seq<Token>, open: bool, names: set<string>)
    requires Fit(a + b, open, names)
    ensures Fit(a, open, names)
    decreases |a|
  {
    if a != [] {
      assert (a + b)[1..] == a[1..] + b;
      FitPrefix(a[1..], b, Opens(a[0]), names);
    }
  }

  /** Code that is fit to be followed by a name, when the user's own name is clear. */
  lemma NameHeadScans(user: string, a: Expr, attr: Attribute)
    requires NoRawWhite(user) && Named(Attr(attr)) && Writes(UserRule(user, a, IsNot(attr, user)), {user})
    ensures var pre := Render(NameHead(user, a, attr));
            Clean(pre, Code) && Terminated(pre) && Skippable(pre, Code)
  {
    var head := NameHead(user, a, attr);
    NameRuleTokens(user, a, attr, user);
    hide Writes, UserRule, IsNot, NameHead, NoRawWhite, Render;
    WritesSpelled(UserRule(user, a, IsNot(attr, user)), {user});
    FitPrefix(head, [Json(user)], true, {user});
    FitScans(head, true, ' ', {user});
    FitNames(head, true, {user});
  }

  /** What stands for a rule in an accepted policy lets through only what some name would. */
  lemma RespelledRuleHolds(parse: Compiler, user: string, a: Expr, attr: Attribute, name: string, e: string -> Expr,
                           text: string, r: Request) returns (other: string)
    requires NoRawWhite(user) && Named(Attr(attr)) && Writes(UserRule(user, a, IsNot(attr, user)), {user})
    requires Writes(UserRule(user, a, IsNot(attr, name)), {user, name})
    requires ReadsEnding(parse, Render(NameHead(user, a, attr)), e)
    requires Normalize(text) == Normalize(SourceText(UserRule(user, a, IsNot(attr, name))))
    requires Compile(parse, text).Some? && Holds(Compile(parse, text).value, r)
    ensures Holds(e(other), r)
  {
    var pre := Render(NameHead(user, a, attr));
    NameHeadScans(user, a, attr);
    NameRuleTokens(user, a, attr, name);
    SourceTextSoundIff(UserRule(user, a, IsNot(attr, name)), {user, name});
    RenderEnd(NameHead(user, a, attr), name);
    hide Writes, UserRule, IsNot, NameHead, NoRawWhite, Render, Normalize, Quoted, Eval, Enclosed, Tokens;
    var body := VariantCompilesAsLiteral(parse, pre, name, text);
    other :| Means(Compile(parse, pre + Enclosed(body)), e(other));
  }

  lemma RenderEnd(a: seq<Token>, name: string)
    ensures Render(a + [Json(name)]) == Render(a) + Quoted(name)
  {
    RenderAround(a, name, []);
    assert a + [Json(name)] + [] == a + [Json(name)] && Quoted(name) + Render([]) == Quoted(name);
  }

  // ---- what is refused

  lemma ClearNamesRefuse(parse: Compiler, p: Policy, b: Binding, name: string, controlPlane: string, namespace: string,
                         r: Request, exempt: bool)
    requires ValidateFirewallObjects(p, b, name, controlPlane, namespace).Ok?
    requires NoRawWhite(controlPlane) && NoRawWhite(namespace)
    requires Reads(parse, FirewallExpressions(controlPlane, namespace))
    requires FirewallRequest(r) && r.user == controlPlane && Forbidden(r, namespace)
    ensures !Admits(parse, p, b, r, exempt)
  {
    CoveredIffListed(r);
    var i :| 0 <= i < |FIREWALL_COVERAGE| && Within(r, FIREWALL_COVERAGE[i]);
    var es := FirewallExpressions(controlPlane, namespace);
    hide ValidatePolicy, Reads, Firm, Admits, NoRawWhite, Within, FirewallExpressions, Forbidden;
    forall k | 0 <= k < |es| ensures Firm(SourceText(es[k])) { FirewallTextsFirm(controlPlane, namespace, es[k]); }
    if Admits(parse, p, b, r, exempt) {
      AcceptedSetEnforced(parse, p, b, name, "identity firewall policy", "identity firewall binding",
                          FIREWALL_COVERAGE, es, r, exempt, i);
      FirewallMeaning(controlPlane, namespace, r);
    }
  }

  /** The firewall's own rule in an accepted policy, whatever name it ended up with. */
  lemma InstalledRuleHolds(parse: Compiler, p: Policy, b: Binding, name: string, controlPlane: string,
                           namespace: string, r: Request, exempt: bool, k: nat) returns (other: string)
    requires ValidateFirewallObjects(p, b, name, controlPlane, namespace).Ok? && k < 3
    requires NoRawWhite(controlPlane) && FirewallReader(parse, controlPlane)
    requires FirewallRequest(r) && Admits(parse, p, b, r, exempt)
    ensures Holds(FirewallExpressions(controlPlane, other)[k], r)
  {
    var es := FirewallExpressions(controlPlane, namespace);
    CoveredIffListed(r);
    var i :| 0 <= i < |FIREWALL_COVERAGE| && Within(r, FIREWALL_COVERAGE[i]);
    var text := InstalledTextHolds(parse, p, b, name, "identity firewall policy", "identity firewall binding",
                                   FIREWALL_COVERAGE, Texts(es), r, exempt, i, k);
    hide ValidatePolicy, Admits, Within, Eval, Normalize, NoRawWhite, Writes, Render, Firm;
    FirewallWrites(controlPlane, namespace, es[k]);
    FirewallWrites(controlPlane, controlPlane, FirewallExpressions(controlPlane, controlPlane)[k]);
    assert {controlPlane, controlPlane} == {controlPlane};
    if k == 0 {
      other := RespelledRuleHolds(parse, controlPlane, ClusterScoped(), Namespace, namespace,
                                  n => OutsideNamespace(controlPlane, n), text, r);
    } else if k == 1 {
      other := RespelledRuleHolds(parse, controlPlane, IsNot(Resource, NAMESPACES), Name, namespace,
                                  n => NotTheNamespace(controlPlane, n), text, r);
    } else {
      other := controlPlane;
      FirewallTextsFirm(controlPlane, controlPlane, es[2]);
      AcceptedTextCompilesAlike(parse, SourceText(es[2]), text);
      assert Means(Compile(parse, SourceText(es[2])), es[2]);
      assert Holds(es[2], r);
    }
  }

  lemma RawNamespaceRefuses(parse: Compiler, p: Policy, b: Binding, name: string, controlPlane: string,
                            namespace: string, r: Request, exempt: bool)
    requires ValidateFirewallObjects(p, b, name, controlPlane, namespace).Ok?
    requires NoRawWhite(controlPlane) && FirewallReader(parse, controlPlane)
    requires FirewallRequest(r) && r.user == controlPlane && ForbiddenUnderAnyName(r)
    ensures !Admits(parse, p, b, r, exempt)
  {
    hide ValidateFirewallObjects, FirewallReader, FirewallRequest, Admits, Eval, NoRawWhite;
    if Admits(parse, p, b, r, exempt) {
      var first := InstalledRuleHolds(parse, p, b, name, controlPlane, namespace, r, exempt, 0);
      var second := InstalledRuleHolds(parse, p, b, name, controlPlane, namespace, r, exempt, 1);
      var third := InstalledRuleHolds(parse, p, b, name, controlPlane, namespace, r, exempt, 2);
      OutsideNamespaceMeaning(controlPlane, first, r);
      NotTheNamespaceMeaning(controlPlane, second, r);
      NotClusterRbacMeaning(controlPlane, r);
      ClusterKindsApart();
    }
  }

  lemma ClusterKindsApart()
    ensures NAMESPACES != CLUSTER_ROLES && NAMESPACES != CLUSTER_ROLE_BINDINGS
  {
    assert NAMESPACES[0] == 'n' && CLUSTER_ROLES[0] == CLUSTER_ROLE_BINDINGS[0] == 'c';
  }

  /** An accepted firewall policy keeps the promise, whatever the names. */
  lemma ForbiddenRefused(parse: Compiler, p: Policy, b: Binding, name: string, controlPlane: string, namespace: string,
                         r: Request, exempt: bool)
    requires ValidateFirewallObjects(p, b, name, controlPlane, namespace).Ok? && FirewallReader(parse, controlPlane)
    requires r.user == controlPlane && Promised(r, controlPlane, namespace)
    ensures !Admits(parse, p, b, r, exempt)
  {
    hide ValidateFirewallObjects, Forbidden, ForbiddenUnderAnyName, FirewallRequest, NoRawWhite, Reads, Admits,
         ReadsEnding;
    if NoRawWhite(namespace) {
      ClearNamesRefuse(parse, p, b, name, controlPlane, namespace, r, exempt);
    } else {
      RawNamespaceRefuses(parse, p, b, name, controlPlane, namespace, r, exempt);
    }
  }

  /** No entry of the coverage is, or could pass for, a pattern. */
  predicate Starless(s: string) { s != "" ==> s[0] != '*' && s[|s| - 1] != '*' }

  predicate StarlessCoverage(c: Coverage) {
    && Starless(c.group) && Starless(c.version)
    && (forall i :: 0 <= i < |c.operations| ==> Starless(c.operations[i]))
    && (forall i :: 0 <= i < |c.resources| ==> Starless(c.resources[i]))
  }

  lemma CoreLineIsStarless()
    ensures StarlessCoverage(FIREWALL_COVERAGE[0])
  {}

  lemma WorkloadLinesAreStarless(i: nat)
    requires 1 <= i < 6
    ensures StarlessCoverage(FIREWALL_COVERAGE[i])
  {}

  lemma OtherLinesAreStarless(i: nat)
    requires 6 <= i < |FIREWALL_COVERAGE|
    ensures StarlessCoverage(FIREWALL_COVERAGE[i])
  {}

  lemma CoverageIsStarless(i: nat)
    requires i < |FIREWALL_COVERAGE|
    ensures StarlessCoverage(FIREWALL_COVERAGE[i])
  {
    hide StarlessCoverage;
    if i == 0 {
      CoreLineIsStarless();
    } else if i < 6 {
      WorkloadLinesAreStarless(i);
    } else {
      OtherLinesAreStarless(i);
    }
  }

  lemma StarlessEntry(entry: string, r: Request)
    requires Starless(entry) && EntryMatches(entry, r)
    ensures entry == FullResource(r)
  {
    assert "*/*"[0] == '*' && "*"[0] == '*';
    assert r.subResource != "" ==> ("*/" + r.subResource)[0] == '*';
    assert (r.resource + "/*")[|r.resource| + 1] == '*';
  }

  /** The rule made for a line of coverage matches exactly the requests inside it. */
  lemma LineRuleMatchesWithin(c: Coverage, r: Request)
    requires StarlessCoverage(c)
    ensures RuleMatches(LineRule(c), r) <==> Within(r, c)
  {
    var rule := LineRule(c);
    if RuleMatches(rule, r) {
      var k :| 0 <= k < |rule.resources| && EntryMatches(rule.resources[k], r);
      StarlessEntry(c.resources[k], r);
      assert "*"[0] == '*';
    }
    if Within(r, c) {
      assert RuleCovers(rule, c);
      CoverageMatches(rule, c, r);
    }
  }

  function FirewallPolicy(name: string, controlPlane: string, namespace: string): Policy {
    MinimalPolicy(name, FIREWALL_COVERAGE, Texts(FirewallExpressions(controlPlane, namespace)))
  }

  /** Startup accepts the minimal policy for one pair of names wherever it reads alike for another. */
  lemma RespelledPolicyAccepted(name: string, controlPlane: string, namespace: string, user: string, other: string)
    requires ReadAlike(controlPlane, namespace, user, other)
    ensures ValidateFirewallObjects(FirewallPolicy(name, user, other), MinimalBinding(name),
                                    name, controlPlane, namespace).Ok?
  {
    hide ValidatePolicy, FirewallExpressions, Normalize, SourceText;
    var required, texts := Texts(FirewallExpressions(controlPlane, namespace)), Texts(FirewallExpressions(user, other));
    forall k | 0 <= k < |required| ensures Lists(texts, required[k]) {
      assert Normalize(texts[k]) == Normalize(required[k]);
    }
    MinimalPolicyAccepted(name, "identity firewall policy", "identity firewall binding",
                          FIREWALL_COVERAGE, required, texts);
  }

  lemma FirewallPolicyAccepted(name: string, controlPlane: string, namespace: string)
    ensures ValidateFirewallObjects(FirewallPolicy(name, controlPlane, namespace), MinimalBinding(name),
                                    name, controlPlane, namespace).Ok?
  {
    hide ValidateFirewallObjects, FirewallExpressions, FirewallPolicy, MinimalBinding, Normalize;
    RespelledPolicyAccepted(name, controlPlane, namespace, controlPlane, namespace);
  }

  /** The minimal firewall policy is evaluated on the covered requests alone. */
  lemma FirewallPolicyCovers(name: string, controlPlane: string, namespace: string, r: Request, exempt: bool)
    requires Enforced(FirewallPolicy(name, controlPlane, namespace), MinimalBinding(name), r, exempt)
    ensures FirewallRequest(r)
  {
    var rules := FirewallPolicy(name, controlPlane, namespace).spec.value.matchConstraints.value.resourceRules.value;
    var i :| 0 <= i < |rules| && RuleMatches(rules[i], r);
    assert rules[i] == LineRule(FIREWALL_COVERAGE[i]);
    CoverageIsStarless(i);
    hide StarlessCoverage, RuleMatches;
    LineRuleMatchesWithin(FIREWALL_COVERAGE[i], r);
    CoveredIffListed(r);
  }

  lemma FirewallPolicyAdmits(parse: Compiler, name: string, controlPlane: string, namespace: string, r: Request)
    requires || !FirewallRequest(r)
             || (&& Reads(parse, FirewallExpressions(controlPlane, namespace))
                 && (r.user != controlPlane || !Forbidden(r, namespace)))
    ensures Admits(parse, FirewallPolicy(name, controlPlane, namespace), MinimalBinding(name), r, false)
  {
    var p, b, es := FirewallPolicy(name, controlPlane, namespace), MinimalBinding(name),
      FirewallExpressions(controlPlane, namespace);
    hide FIREWALL_COVERAGE, FirewallExpressions, Forbidden, FirewallRequest, Enforced;
    if Enforced(p, b, r, false) {
      FirewallPolicyCovers(name, controlPlane, namespace, r, false);
      FirewallMeaning(controlPlane, namespace, r);
      forall k | 0 <= k < |p.spec.value.validations|
        ensures Passes(parse, p.spec.value.failurePolicy, p.spec.value.validations[k], r)
      {
        assert es[k] in es && Means(Compile(parse, SourceText(es[k])), es[k]);
      }
    }
  }

  /** A control plane whose name holds raw white space is not firewalled at all. */
  lemma RawControlPlanePasses(parse: Compiler, name: string, controlPlane: string, namespace: string, r: Request,
                              i: nat) returns (p: Policy, b: Binding)
    requires i < |controlPlane| && RawWhite(controlPlane[i]) && r.user == controlPlane
    requires Reads(parse, FirewallExpressions(Doubled(controlPlane, i), namespace))
    ensures ValidateFirewallObjects(p, b, name, controlPlane, namespace).Ok? && Admits(parse, p, b, r, false)
  {
    var other := Doubled(controlPlane, i);
    assert |other| == |controlPlane| + 1;
    hide ValidateFirewallObjects, Admits, Reads, FirewallPolicy, MinimalBinding, Doubled, RawWhite, ReadAlike,
         Forbidden;
    p, b := FirewallPolicy(name, other, namespace), MinimalBinding(name);
    FirewallReadsAlike(controlPlane, namespace, i);
    RespelledPolicyAccepted(name, controlPlane, namespace, other, namespace);
    FirewallPolicyAdmits(parse, name, other, namespace, r);
  }

  lemma ForbiddenUnderTwoNames(r: Request, namespace: string, other: string)
    requires namespace != other && Forbidden(r, namespace) && Forbidden(r, other)
    ensures ForbiddenUnderAnyName(r)
  {
    ClusterKindsApart();
  }

  /** A namespace whose name holds raw white space is firewalled only where no name matters. */
  lemma RawNamespacePasses(parse: Compiler, name: string, controlPlane: string, namespace: string, r: Request, i: nat)
    returns (p: Policy, b: Binding)
    requires i < |namespace| && RawWhite(namespace[i]) && !ForbiddenUnderAnyName(r)
    requires Reads(parse, FirewallExpressions(controlPlane, namespace))
    requires Reads(parse, FirewallExpressions(controlPlane, Doubled(namespace, i)))
    ensures ValidateFirewallObjects(p, b, name, controlPlane, namespace).Ok? && Admits(parse, p, b, r, false)
  {
    var other := Doubled(namespace, i);
    assert |other| == |namespace| + 1;
    hide ValidateFirewallObjects, Admits, Reads, FirewallPolicy, MinimalBinding, Doubled, RawWhite, ReadAlike,
         Forbidden, ForbiddenUnderAnyName, FirewallRequest;
    FirewallReadsAlike(controlPlane, namespace, i);
    if !Forbidden(r, namespace) {
      p, b := FirewallPolicy(name, controlPlane, namespace), MinimalBinding(name);
      FirewallPolicyAccepted(name, controlPlane, namespace);
      FirewallPolicyAdmits(parse, name, controlPlane, namespace, r);
    } else {
      if Forbidden(r, other) { ForbiddenUnderTwoNames(r, namespace, other); }
      p, b := FirewallPolicy(name, controlPlane, other), MinimalBinding(name);
      RespelledPolicyAccepted(name, controlPlane, namespace, controlPlane, other);
      FirewallPolicyAdmits(parse, name, controlPlane, other, r);
    }
  }

  lemma UnpromisedPasses(parse: Compiler, name: string, controlPlane: string, namespace: string, r: Request)
    returns (p: Policy, b: Binding)
    requires r.user == controlPlane && FirewallReader(parse, controlPlane) && !Promised(r, controlPlane, namespace)
    ensures ValidateFirewallObjects(p, b, name, controlPlane, namespace).Ok? && Admits(parse, p, b, r, false)
  {
    hide ValidateFirewallObjects, Admits, Reads, ReadsEnding, FirewallRequest, Forbidden, ForbiddenUnderAnyName,
         FirewallPolicy, MinimalBinding, RawWhite, Doubled;
    if !NoRawWhite(controlPlane) {
      var i :| 0 <= i < |controlPlane| && RawWhite(controlPlane[i]);
      p, b := RawControlPlanePasses(parse, name, controlPlane, namespace, r, i);
    } else if FirewallRequest(r) && !NoRawWhite(namespace) {
      var i :| 0 <= i < |namespace| && RawWhite(namespace[i]);
      p, b := RawNamespacePasses(parse, name, controlPlane, namespace, r, i);
    } else {
      p, b := FirewallPolicy(name, controlPlane, namespace), MinimalBinding(name);
      FirewallPolicyAccepted(name, controlPlane, namespace);
      FirewallPolicyAdmits(parse, name, controlPlane, namespace, r);
    }
  }

  /** Exactly what the firewall does about the control plane, for all names and all requests: every
      accepted policy refuses a request if and only if it is promised. */
  lemma FirewallRefusesExactly(parse: Compiler, name: string, controlPlane: string, namespace: string, r: Request)
    requires r.user == controlPlane && FirewallReader(parse, controlPlane)
    ensures (forall p, b, exempt :: ValidateFirewallObjects(p, b, name, controlPlane, namespace).Ok? ==>
               !Admits(parse, p, b, r, exempt))
            <==> Promised(r, controlPlane, namespace)
  {
    hide ValidateFirewallObjects, Admits, Promised, FirewallReader;
    if Promised(r, controlPlane, namespace) {
      forall p, b, exempt | ValidateFirewallObjects(p, b, name, controlPlane, namespace).Ok?
        ensures !Admits(parse, p, b, r, exempt)
      {
        ForbiddenRefused(parse, p, b, name, controlPlane, namespace, r, exempt);
      }
    } else {
      var p, b := UnpromisedPasses(parse, name, controlPlane, namespace, r);
    }
  }

  // ---------------------------------------------------------------- runs

  datatype Key = Key(group: string, resource: string, namespace: string, name: string)

  type Store = map<Key, Value>

  /** A request can reach only the objects it names; a collection request names them all. */
  predicate Reaches(r: Request, k: Key) {
    && r.group == k.group && r.resource == k.resource
    && (r.name == "" || r.name == k.name)
    && (ClusterKind(r.resource) || r.namespace == k.namespace)
  }

  predicate Same(s: Store, s': Store, k: Key) {
    (k in s <==> k in s') && (k in s && k in s' ==> s[k] == s'[k])
  }

  ghost predicate Step(s: Store, r: Request, s': Store) {
    forall k :: !Reaches(r, k) ==> Same(s, s', k)
  }

  /** The authority's namespace, what lives in it, and all cluster-scoped RBAC. */
  predicate Protected(k: Key, namespace: string) {
    || (!ClusterKind(k.resource) && k.namespace == namespace)
    || (k.resource == NAMESPACES && k.name == namespace)
    || (k.group == RBAC_GROUP && (k.resource == CLUSTER_ROLES || k.resource == CLUSTER_ROLE_BINDINGS))
  }

  /** Any sequence of requests by anybody that the policy lets through, covered or not. */
  ghost predicate IsRun(parse: Compiler, p: Policy, b: Binding,
                        states: seq<Store>, requests: seq<Request>, exempt: seq<bool>) {
    && |states| == |requests| + 1 == |exempt| + 1
    && forall i :: 0 <= i < |requests| ==>
         Admits(parse, p, b, requests[i], exempt[i]) && Step(states[i], requests[i], states[i + 1])
  }

  lemma ReachingProtectedIsForbidden(r: Request, k: Key, namespace: string)
    requires Reaches(r, k) && Protected(k, namespace)
    ensures Forbidden(r, namespace)
  {}

  /** Over any run, a protected object that differs between two states was reached by some step that
      the control plane did not make, or that the firewall does not promise to refuse. */
  lemma {:induction false} ProtectedChangedByOthers(
    parse: Compiler, p: Policy, b: Binding, firewall: string, controlPlane: string, namespace: string,
    states: seq<Store>, requests: seq<Request>, exempt: seq<bool>, j: nat, k: Key) returns (m: nat)
    requires ValidateFirewallObjects(p, b, firewall, controlPlane, namespace).Ok? && FirewallReader(parse, controlPlane)
    requires IsRun(parse, p, b, states, requests, exempt) && j < |states| && Protected(k, namespace)
    requires !Same(states[0], states[j], k)
    ensures m < j && Reaches(requests[m], k)
    ensures requests[m].user != controlPlane || !Promised(requests[m], controlPlane, namespace)
    ensures NoRawWhite(controlPlane) && NoRawWhite(namespace) ==>
              requests[m].user != controlPlane || !FirewallRequest(requests[m])
    decreases j
  {
    hide ValidateFirewallObjects, FirewallReader, Admits, FirewallRequest, ForbiddenUnderAnyName;
    if Same(states[j - 1], states[j], k) {
      m := ProtectedChangedByOthers(parse, p, b, firewall, controlPlane, namespace, states, requests, exempt, j - 1, k);
    } else {
      m := j - 1;
      assert Step(states[m], requests[m], states[m + 1]);
      ReachingProtectedIsForbidden(requests[m], k, namespace);
      if requests[m].user == controlPlane && Promised(requests[m], controlPlane, namespace) {
        ForbiddenRefused(parse, p, b, firewall, controlPlane, namespace, requests[m], exempt[m]);
      }
    }
  }

  /** A run of covered requests by the control plane alone. */
  ghost predicate ControlPlaneRun(parse: Compiler, p: Policy, b: Binding, controlPlane: string,
                                  states: seq<Store>, requests: seq<Request>, exempt: seq<bool>) {
    && IsRun(parse, p, b, states, requests, exempt)
    && forall i :: 0 <= i < |requests| ==> requests[i].user == controlPlane && FirewallRequest(requests[i])
  }

  predicate ClusterRbac(k: Key) {
    k.group == RBAC_GROUP && (k.resource == CLUSTER_ROLES || k.resource == CLUSTER_ROLE_BINDINGS)
  }

  /** The names under which the firewall shields an object. */
  predicate Shielded(k: Key, controlPlane: string, namespace: string) {
    NoRawWhite(controlPlane) && (NoRawWhite(namespace) || ClusterRbac(k))
  }

  lemma ReachingShieldedIsPromised(r: Request, k: Key, controlPlane: string, namespace: string)
    requires Reaches(r, k) && Protected(k, namespace) && Shielded(k, controlPlane, namespace) && FirewallRequest(r)
    ensures Promised(r, controlPlane, namespace)
  {}

  /** A control plane acting alone and within the coverage leaves everything shielded as it was. */
  lemma ControlPlaneAloneChangesNothing(
    parse: Compiler, p: Policy, b: Binding, firewall: string, controlPlane: string, namespace: string,
    states: seq<Store>, requests: seq<Request>, exempt: seq<bool>, k: Key)
    requires ValidateFirewallObjects(p, b, firewall, controlPlane, namespace).Ok? && FirewallReader(parse, controlPlane)
    requires ControlPlaneRun(parse, p, b, controlPlane, states, requests, exempt)
    requires Protected(k, namespace) && Shielded(k, controlPlane, namespace)
    ensures Same(states[0], states[|requests|], k)
  {
    hide ValidateFirewallObjects, FirewallReader, FirewallRequest, Promised, Protected, Shielded;
    if !Same(states[0], states[|requests|], k) {
      var m := ProtectedChangedByOthers(parse, p, b, firewall, controlPlane, namespace, states, requests, exempt,
                                        |requests|, k);
      ReachingShieldedIsPromised(requests[m], k, controlPlane, namespace);
    }
  }

  lemma UnshieldedIsUnpromised(r: Request, k: Key, controlPlane: string, namespace: string)
    requires Reaches(r, k) && r.name == k.name && Protected(k, namespace) && !Shielded(k, controlPlane, namespace)
    ensures !Promised(r, controlPlane, namespace)
  {
    ClusterKindsApart();
  }

  /** Over whole runs, for all names: a protected object that some covered request names is safe from the
      control plane under every accepted policy if and only if it is shielded. */
  lemma ControlPlaneAloneIff(
    parse: Compiler, firewall: string, controlPlane: string, namespace: string, k: Key, r: Request)
    requires FirewallReader(parse, controlPlane) && Protected(k, namespace)
    requires FirewallRequest(r) && r.user == controlPlane && Reaches(r, k) && r.name == k.name
    ensures Shielded(k, controlPlane, namespace) <==>
            forall p, b, states, requests, exempt ::
              && ValidateFirewallObjects(p, b, firewall, controlPlane, namespace).Ok?
              && ControlPlaneRun(parse, p, b, controlPlane, states, requests, exempt) ==>
                Same(states[0], states[|requests|], k)
  {
    hide ValidateFirewallObjects, FirewallReader, FirewallRequest, Promised, Protected, Shielded, Admits;
    if Shielded(k, controlPlane, namespace) {
      forall p, b, states, requests, exempt |
        && ValidateFirewallObjects(p, b, firewall, controlPlane, namespace).Ok?
        && ControlPlaneRun(parse, p, b, controlPlane, states, requests, exempt)
        ensures Same(states[0], states[|requests|], k)
      {
        ControlPlaneAloneChangesNothing(parse, p, b, firewall, controlPlane, namespace, states, requests, exempt, k);
      }
    } else {
      UnshieldedIsUnpromised(r, k, controlPlane, namespace);
      var p, b := UnpromisedPasses(parse, firewall, controlPlane, namespace, r);
      var before: Store, after: Store := map[], map[k := Null];
      assert Step(before, r, after);
      assert ControlPlaneRun(parse, p, b, controlPlane, [before, after], [r], [false]);
      assert !Same([before, after][0], [before, after][1], k);
    }
  }

  function ScaleRequest(controlPlane: string, namespace: string): Request {
    Request(controlPlane, "apps", "v1", "deployments", "scale", UPDATE, namespace, "authority", Obj(map[]), Obj(map[]))
  }

  lemma ScaleIsNotCovered(r: Request)
    requires r.group == "apps" && r.resource == "deployments" && r.subResource == "scale"
    ensures !FirewallRequest(r)
  {
    assert FullResource(r) == "deployments" + "/" + "scale" && |FullResource(r)| == 17;
    assert |"apps"| == 4 && FullResource(r) !in WORKLOADS;
    hide CORE_KINDS, POD_CONNECTIONS, JOBS, NETWORK_KINDS, ROLES, CLUSTER_RBAC, CHANGES, WORKLOADS;
  }

  /** The coverage names Deployments but not their scale: for every namespace and control plane some
      accepted policy lets the control plane rescale a Deployment of the authority's namespace. */
  lemma ScaleSlipsThrough(parse: Compiler, name: string, controlPlane: string, namespace: string)
    returns (p: Policy, b: Binding)
    ensures ValidateFirewallObjects(p, b, name, controlPlane, namespace).Ok?
    ensures var r := ScaleRequest(controlPlane, namespace);
            && Admits(parse, p, b, r, false)
            && var k := Key("apps", "deployments", namespace, "authority");
               Reaches(r, k) && Protected(k, namespace)
  {
    p, b := FirewallPolicy(name, controlPlane, namespace), MinimalBinding(name);
    var r := ScaleRequest(controlPlane, namespace);
    ScaleIsNotCovered(r);
    assert "deployments"[0] == 'd' && NAMESPACES[0] == 'n' && CLUSTER_ROLES[0] == CLUSTER_ROLE_BINDINGS[0] == 'c';
    hide ValidateFirewallObjects, Admits, FirewallPolicy, MinimalBinding, FirewallRequest;
    FirewallPolicyAccepted(name, controlPlane, namespace);
    FirewallPolicyAdmits(parse, name, controlPlane, namespace, r);
  }

  /** The firewall never stands in the authority's way. */
  lemma AuthorityNeverFirewalled(policy: string, firewall: string, authority: string, controlPlane: string,
                                 namespace: string, r: Request)
    requires ValidateIdentityContract(policy, firewall, authority, controlPlane, namespace).Ok?
    requires r.user == authority
    ensures forall e :: e in FirewallExpressions(controlPlane, namespace) ==> Holds(e, r)
  {
    FirewallMeaning(controlPlane, namespace, r);
  }
}
