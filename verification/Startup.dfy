/** The authority's startup validation as a whole, and what a run that follows it can rely on. */
module Startup {
  import opened Common
  import Text
  import opened Cel
  import opened AuthorityExpressions
  import opened ExpressionText
  import opened ExpressionSource
  import opened PolicyValidation
  import Runs = AuthorityRuns
  import Raw = RawNames
  import Wall = Firewall

  /** The names and identities the deployment configures. */
  datatype Contract = Contract(
    policy: string, firewall: string, authority: string, controlPlane: string, namespace: string)

  /** What the API server answered: both policies with their bindings, and who the caller is. */
  datatype Cluster = Cluster(
    policy: Policy, binding: Binding, firewall: Policy, firewallBinding: Binding, username: Option<string>)

  function Identities(c: Contract): Result<(), AuthorityError> {
    Wall.ValidateIdentityContract(c.policy, c.firewall, c.authority, c.controlPlane, c.namespace)
  }

  function Validate(c: Contract, k: Cluster): Result<(), AuthorityError> {
    if Identities(c).Err? then Identities(c)
    else if k.username != Some(c.authority) then Err(Invalid("ServiceAccount identity"))
    else
      var objects := ValidateObjects(k.policy, k.binding, c.policy, c.authority);
      if objects.Err? then objects
      else Wall.ValidateFirewallObjects(k.firewall, k.firewallBinding, c.firewall, c.controlPlane, c.namespace)
  }

  // ---------------------------------------------------------------- what follows a successful startup

  /** On every step of every run: proofs change only by the authority, lifecycle fields only by others,
      evidence only by the authority, and the authority adds and removes no lease or instance. */
  lemma StartedRunsSeparateAuthority(parse: Compiler, c: Contract, k: Cluster, run: Runs.Run, i: nat)
    requires Validate(c, k).Ok? && NoRawWhite(c.authority) && Reads(parse, RequiredExpressions(c.authority))
    requires Runs.IsRun(parse, k.policy, k.binding, run) && i < |run.requests|
    ensures var before, after := run.states[i].objects, run.states[i + 1].objects;
            forall key, t :: key in before && key in after && Runs.Read(before[key], t) != Runs.Read(after[key], t) ==>
              && (Runs.ProofTrait(key.resource, t) ==> run.requests[i].user == c.authority)
              && (Runs.LifecycleTrait(key.resource, t) ==> run.requests[i].user != c.authority)
    ensures run.requests[i].user != c.authority ==>
              forall key: Runs.Key :: key.resource == EVIDENCE ==>
                (key in run.states[i].objects <==> key in run.states[i + 1].objects)
                && (key in run.states[i].objects ==> run.states[i].objects[key] == run.states[i + 1].objects[key])
    ensures run.requests[i].user == c.authority ==>
              forall key: Runs.Key :: key.resource in {LEASES, INSTANCES} ==>
                (key in run.states[i].objects <==> key in run.states[i + 1].objects)
  {
    hide Wall.ValidateFirewallObjects, ValidateObjects, Enforces, NoRawWhite, Reads, CommonExpressions;
    StartupEnforces(parse, k.policy, k.binding, c.policy, c.authority);
    Runs.StepSeparatesAuthority(parse, k.policy, k.binding, RequiredExpressions(c.authority), c.authority, run, i);
  }

  /** Every proof on a live object was written by the very account that passed startup, an account of
      the authority namespace that is not the control plane. */
  lemma ProofsComeFromTheStartedAuthority(
    parse: Compiler, c: Contract, k: Cluster, run: Runs.Run, j: nat, key: Runs.Key, t: Runs.Trait) returns (m: nat)
    requires Validate(c, k).Ok? && NoRawWhite(c.authority) && Reads(parse, RequiredExpressions(c.authority))
    requires Runs.IsRun(parse, k.policy, k.binding, run) && j < |run.states|
    requires Runs.NoneOf(run.states[0], key.resource)
    requires key in run.states[j].objects && Runs.ProofTrait(key.resource, t)
    requires Runs.Read(run.states[j].objects[key], t) != Runs.Unset(t)
    ensures m < j && Runs.AttestedAt(run, m, c.authority, key, Uid(run.states[j].objects[key]), t,
                                     Runs.Read(run.states[j].objects[key], t))
    ensures k.username == Some(run.requests[m].user) && run.requests[m].user != c.controlPlane
    ensures Wall.AccountIn(run.requests[m].user, c.namespace)
  {
    hide Wall.ValidateFirewallObjects, ValidateObjects, Enforces, NoRawWhite, Reads, CommonExpressions;
    Wall.ContractMeaning(c.policy, c.firewall, c.authority, c.controlPlane, c.namespace);
    StartupEnforces(parse, k.policy, k.binding, c.policy, c.authority);
    m := Runs.ProofHasAuthorityAuthor(parse, k.policy, k.binding, RequiredExpressions(c.authority), c.authority,
                                      run, j, key, t);
  }

  /** A lease that ever carried the retention finalizer keeps it and stays stored, unless the authority
      acknowledged that very lease earlier in the run. */
  lemma StartedRunsRetain(parse: Compiler, c: Contract, k: Cluster, run: Runs.Run, i: nat, j: nat, key: Runs.Key)
    requires Validate(c, k).Ok? && NoRawWhite(c.authority) && Reads(parse, RequiredExpressions(c.authority))
    requires Runs.IsRun(parse, k.policy, k.binding, run) && i <= j < |run.states|
    requires Runs.NoneOf(run.states[0], LEASES)
    requires key in run.states[i].objects && key.resource == LEASES && Retained(run.states[i].objects[key])
    ensures || Runs.StillRetained(run.states[j], key, Uid(run.states[i].objects[key]))
            || Runs.AcknowledgedBefore(run, c.authority, key, Uid(run.states[i].objects[key]), j)
  {
    hide Wall.ValidateFirewallObjects, ValidateObjects, Enforces, NoRawWhite, Reads, Runs.IsRun;
    StartupEnforces(parse, k.policy, k.binding, c.policy, c.authority);
    Runs.RetentionOutlivesAcknowledgement(parse, k.policy, k.binding, c.authority, run, i, j, key);
  }

  /** The authority namespace is part of the authority's name. */
  lemma NamespaceIsClear(c: Contract)
    requires Identities(c).Ok? && NoRawWhite(c.authority)
    ensures NoRawWhite(c.namespace)
  {
    Wall.ContractMeaning(c.policy, c.firewall, c.authority, c.controlPlane, c.namespace);
    var name :| Wall.AccountParts(c.namespace, name) && c.authority == Wall.FormatIdentity(c.namespace, name);
    forall i | 0 <= i < |c.namespace| ensures !RawWhite(c.namespace[i]) {
      assert c.authority[|Wall.ACCOUNT_PREFIX| + i] == c.namespace[i];
    }
  }

  /** Whatever protected object changes over any run was reached by somebody other than the control
      plane, or by a request the firewall does not promise to refuse: with clear names, one outside
      its coverage. */
  lemma AuthorityOutOfReach(parse: Compiler, c: Contract, k: Cluster, states: seq<Wall.Store>, requests: seq<Request>,
                            exempt: seq<bool>, j: nat, key: Wall.Key) returns (m: nat)
    requires Validate(c, k).Ok? && Wall.FirewallReader(parse, c.controlPlane)
    requires Wall.IsRun(parse, k.firewall, k.firewallBinding, states, requests, exempt) && j < |states|
    requires Wall.Protected(key, c.namespace) && !Wall.Same(states[0], states[j], key)
    ensures Wall.AccountIn(c.authority, c.namespace) && m < j && Wall.Reaches(requests[m], key)
    ensures requests[m].user != c.controlPlane || !Wall.Promised(requests[m], c.controlPlane, c.namespace)
    ensures NoRawWhite(c.authority) && NoRawWhite(c.controlPlane) ==>
              requests[m].user != c.controlPlane || !Wall.FirewallRequest(requests[m])
  {
    if NoRawWhite(c.authority) { NamespaceIsClear(c); }
    hide ValidateObjects, NoRawWhite, Wall.FirewallReader, Wall.IsRun, Wall.ValidateFirewallObjects, Wall.Promised,
         Wall.Protected, Wall.FirewallRequest;
    Wall.ContractMeaning(c.policy, c.firewall, c.authority, c.controlPlane, c.namespace);
    m := Wall.ProtectedChangedByOthers(parse, k.firewall, k.firewallBinding, c.firewall, c.controlPlane, c.namespace,
                                       states, requests, exempt, j, key);
  }

  // ---------------------------------------------------------------- when startup succeeds

  /** Startup succeeds exactly so: two accounts kept apart, the authority calling, and both policies sound,
      observed and bound. */
  lemma StartupSucceedsIff(c: Contract, k: Cluster)
    ensures Validate(c, k).Ok? <==>
            && !Text.Blank(c.namespace) && !Text.Blank(c.policy) && !Text.Blank(c.firewall) && c.policy != c.firewall
            && Wall.AccountIn(c.authority, c.namespace)
            && (exists other :: other != c.namespace && Wall.AccountIn(c.controlPlane, other))
            && k.username == Some(c.authority)
            && Sound(k.policy, c.policy, [AUTHORITY_COVERAGE], Texts(RequiredExpressions(c.authority)))
            && Observed(k.policy) && Binds(k.binding, c.policy)
            && Sound(k.firewall, c.firewall, Wall.FIREWALL_COVERAGE,
                     Texts(Wall.FirewallExpressions(c.controlPlane, c.namespace)))
            && Observed(k.firewall) && Binds(k.firewallBinding, c.firewall)
  {
    hide Sound, Observed, Binds, ValidateObjects, Wall.ValidateFirewallObjects, Wall.AccountIn, Wall.FIREWALL_COVERAGE,
         RequiredExpressions, Wall.FirewallExpressions, Text.Blank, AUTHORITY_COVERAGE;
    Wall.ContractMeaning(c.policy, c.firewall, c.authority, c.controlPlane, c.namespace);
    hide Wall.ValidateIdentityContract;
    StartupVerdict(k.policy, k.binding, c.policy, c.authority);
    Wall.FirewallVerdict(k.firewall, k.firewallBinding, c.firewall, c.controlPlane, c.namespace);
  }

  function MinimalCluster(c: Contract, texts: seq<string>, username: Option<string>): Cluster {
    Cluster(MinimalPolicy(c.policy, [AUTHORITY_COVERAGE], texts), MinimalBinding(c.policy),
            Wall.FirewallPolicy(c.firewall, c.controlPlane, c.namespace), MinimalBinding(c.firewall), username)
  }

  /** On policies with the required texts and nothing else, startup succeeds exactly when the
      identities are sound and the caller is the authority. */
  lemma StartupSucceedsOnMinimal(c: Contract, username: Option<string>)
    ensures Validate(c, MinimalCluster(c, Texts(RequiredExpressions(c.authority)), username)).Ok? <==>
            Identities(c).Ok? && username == Some(c.authority)
  {
    hide ValidatePolicy, MinimalPolicy, MinimalBinding, Identities, Wall.FirewallPolicy, Lists, RequiredExpressions,
         Wall.ValidateFirewallObjects;
    var texts := Texts(RequiredExpressions(c.authority));
    ListsItself(texts);
    MinimalPolicyAccepted(c.policy, "ValidatingAdmissionPolicy", "ValidatingAdmissionPolicyBinding",
                          [AUTHORITY_COVERAGE], texts, texts);
    Wall.FirewallPolicyAccepted(c.firewall, c.controlPlane, c.namespace);
  }

  /** The identity contract lets names with white space through, for either identity. */
  lemma ContractAdmitsRawWhite()
    ensures var authority, controlPlane := Wall.FormatIdentity("ns", "a b"), Wall.FormatIdentity("ms", "c d");
            && Identities(Contract("p", "f", authority, controlPlane, "ns")).Ok?
            && !NoRawWhite(authority) && !NoRawWhite(controlPlane)
  {
    var authority, controlPlane := Wall.FormatIdentity("ns", "a b"), Wall.FormatIdentity("ms", "c d");
    PlainParts();
    hide Wall.AccountParts, NoRawWhite, Wall.FormatIdentity;
    Wall.ContractMeaning("p", "f", authority, controlPlane, "ns");
    assert Wall.AccountIn(authority, "ns") && Wall.AccountIn(controlPlane, "ms");
    BlankInName("ns", "a b", 1);
    BlankInName("ms", "c d", 1);
  }

  lemma PlainParts()
    ensures Wall.AccountParts("ns", "a b") && Wall.AccountParts("ms", "c d") && "ms" != "ns" && "p" != "f"
    ensures !Text.Blank("ns") && !Text.Blank("p") && !Text.Blank("f")
  {
    assert "ns"[0] == 'n' && "ms"[0] == 'm' && "p"[0] == 'p' && "f"[0] == 'f';
  }

  lemma BlankInName(namespace: string, name: string, i: nat)
    requires i < |name| && name[i] == ' '
    ensures !NoRawWhite(Wall.FormatIdentity(namespace, name))
  {
    var username := Wall.FormatIdentity(namespace, name);
    assert username[|username| - |name| + i] == ' ' && RawWhite(' ');
  }

  /** Why the results ask for names without raw white space: for any other authority name the contract
      admits, some cluster passes startup and lets another account write teardown evidence. */
  lemma RawWhitePassesStartup(parse: Compiler, c: Contract, i: nat) returns (k: Cluster, r: Request)
    requires Identities(c).Ok? && i < |c.authority| && RawWhite(c.authority[i])
    requires Reads(parse, RequiredExpressions(c.authority))
    requires Reads(parse, [EvidenceOnlyByAuthority(Doubled(c.authority, i))])
    ensures Validate(c, k).Ok? && ProofRequest(r) && Admits(parse, k.policy, k.binding, r, false)
    ensures r.user != c.authority && r.resource == EVIDENCE
  {
    hide ValidateObjects, Admits, Reads, RequiredExpressions, Identities, Wall.FirewallPolicy,
         Wall.ValidateFirewallObjects, MinimalBinding;
    var p, b, request := Raw.RawWhiteAcceptsAnother(parse, c.policy, c.authority, i);
    Wall.FirewallPolicyAccepted(c.firewall, c.controlPlane, c.namespace);
    k := Cluster(p, b, Wall.FirewallPolicy(c.firewall, c.controlPlane, c.namespace), MinimalBinding(c.firewall),
                 Some(c.authority));
    r := request;
  }

  /** And for the control plane: for any such name the contract admits, some cluster passes startup and
      lets the control plane make any request at all. */
  lemma RawControlPlanePassesStartup(parse: Compiler, c: Contract, i: nat, r: Request) returns (k: Cluster)
    requires Identities(c).Ok? && i < |c.controlPlane| && RawWhite(c.controlPlane[i]) && r.user == c.controlPlane
    requires Reads(parse, Wall.FirewallExpressions(Doubled(c.controlPlane, i), c.namespace))
    ensures Validate(c, k).Ok? && Admits(parse, k.firewall, k.firewallBinding, r, false)
  {
    hide Admits, Reads, Wall.ValidateFirewallObjects, RawWhite;
    var p, b := Wall.RawControlPlanePasses(parse, c.firewall, c.controlPlane, c.namespace, r, i);
    k := WithFirewall(c, p, b);
  }

  /** And for the namespace: some cluster passes startup and lets the control plane reach into it. */
  lemma RawNamespacePassesStartup(parse: Compiler, c: Contract, i: nat, r: Request) returns (k: Cluster)
    requires Identities(c).Ok? && i < |c.namespace| && RawWhite(c.namespace[i]) && !Wall.ForbiddenUnderAnyName(r)
    requires Reads(parse, Wall.FirewallExpressions(c.controlPlane, c.namespace))
    requires Reads(parse, Wall.FirewallExpressions(c.controlPlane, Doubled(c.namespace, i)))
    ensures Validate(c, k).Ok? && Admits(parse, k.firewall, k.firewallBinding, r, false)
  {
    hide Admits, Reads, Wall.ValidateFirewallObjects, RawWhite, Wall.ForbiddenUnderAnyName;
    var p, b := Wall.RawNamespacePasses(parse, c.firewall, c.controlPlane, c.namespace, r, i);
    k := WithFirewall(c, p, b);
  }

  /** Startup accepts an accepted firewall beside the minimal authority policy. */
  lemma WithFirewall(c: Contract, p: Policy, b: Binding) returns (k: Cluster)
    requires Identities(c).Ok?
    requires Wall.ValidateFirewallObjects(p, b, c.firewall, c.controlPlane, c.namespace).Ok?
    ensures Validate(c, k).Ok? && k.firewall == p && k.firewallBinding == b
  {
    hide ValidatePolicy, MinimalPolicy, MinimalBinding, Identities, Lists, RequiredExpressions,
         Wall.ValidateFirewallObjects;
    var texts := Texts(RequiredExpressions(c.authority));
    ListsItself(texts);
    MinimalPolicyAccepted(c.policy, "ValidatingAdmissionPolicy", "ValidatingAdmissionPolicyBinding",
                          [AUTHORITY_COVERAGE], texts, texts);
    var policy := MinimalPolicy(c.policy, [AUTHORITY_COVERAGE], texts);
    k := Cluster(policy, MinimalBinding(c.policy), p, b, Some(c.authority));
  }
}
