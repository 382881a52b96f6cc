/**
 Target provenance: what a Sandbox lease knows about the objects it owns. Knowledge is filled in
 progressively and must never be changed, cleared or retargeted.
 */
module Provenance {
  import opened Common
  import opened Text

  const KOBE_API := "kobe.kunobi.ninja/v1alpha1"
  const AGENT_SANDBOX_API := "extensions.agents.x-k8s.io/v1beta1"
  const SANDBOX_API := "agents.x-k8s.io/v1beta1"
  const CORE_API := "v1"
  const CHILD_NAMESPACE := "kobe-sandbox"

  datatype Reference = Reference(
    apiVersion: string, kind: string, namespace: Option<string>, name: string, uid: string, generation: Option<int>)

  datatype Placement = Management | ChildCluster(clusterPool: Reference)

  datatype Target = Target(
    namespace: string,
    childLease: Option<Reference>,
    childInstance: Option<Reference>,
    kubeconfigSecret: Option<Reference>,
    kubeconfigSha256: Option<string>,
    template: Option<Reference>,
    warmPool: Option<Reference>,
    claim: Option<Reference>,
    sandbox: Option<Reference>,
    pod: Option<Reference>,
    replacementPods: seq<Reference>,
    service: Option<Reference>,
    serviceRequired: Option<bool>,
    workspaceVolumeRequired: Option<bool>)

  datatype Field =
    | NamespaceField | ClusterPoolField | ChildLeaseField | ChildInstanceField
    | KubeconfigSecretField | KubeconfigSha256Field | TemplateField | WarmPoolField | ClaimField
    | SandboxField | PodField | ServiceField | ServiceRequiredField | WorkspaceVolumeRequiredField

  datatype Reason =
    | UnexpectedKind | NameAndUidRequired | NamespaceRequired | NamespaceMismatch | PositiveGenerationRequired
    | EmptyTargetNamespace | NotTheChildNamespace | NotTheOperatorNamespace
    | CredentialIncomplete | CredentialWithoutInstance | CredentialMismatch | DigestNotSha256

  datatype ProvenanceError =
    | UnresolvedPlacement
    | PlacementChanged
    | NamespaceChanged
    | ReferenceCleared(field: Field)
    | ReferenceChanged(field: Field)
    | InvalidReference(field: Field, reason: Reason)
    | UnexpectedChildReference
    | MissingTargetProvenance
    | IncompleteChildProvenance

  type Check = Result<(), ProvenanceError>

  // ---------------------------------------------------------------- validation

  function ValidateReference(field: Field, r: Reference, apiVersion: string, kind: string,
                             namespace: Option<string>, generationRequired: bool): Check
  {
    if r.apiVersion != apiVersion || r.kind != kind then
      Err(InvalidReference(field, UnexpectedKind))
    else if Blank(r.name) || Blank(r.uid) then
      Err(InvalidReference(field, NameAndUidRequired))
    else if r.namespace.None? || r.namespace.value == "" then
      Err(InvalidReference(field, NamespaceRequired))
    else if namespace.Some? && r.namespace != namespace then
      Err(InvalidReference(field, NamespaceMismatch))
    else if generationRequired && (r.generation.None? || r.generation.value <= 0) then
      Err(InvalidReference(field, PositiveGenerationRequired))
    else Ok(())
  }

  function ValidatePlacement(p: Placement, management: string): Check {
    if p.Management? then Ok(())
    else ValidateReference(ClusterPoolField, p.clusterPool, KOBE_API, "ClusterPool", Some(management), true)
  }

  predicate LowerHex(c: char) { '0' <= c <= '9' || 'a' <= c <= 'f' }

  function ValidateCredential(t: Target): Check {
    if t.kubeconfigSecret.None? && t.kubeconfigSha256.None? then Ok(())
    else if t.kubeconfigSecret.None? || t.kubeconfigSha256.None? then
      Err(InvalidReference(KubeconfigSecretField, CredentialIncomplete))
    else if t.childInstance.None? then
      Err(InvalidReference(KubeconfigSecretField, CredentialWithoutInstance))
    else
      var secret, instance, digest := t.kubeconfigSecret.value, t.childInstance.value, t.kubeconfigSha256.value;
      if secret.name != instance.name + "-kubeconfig" || secret.namespace != instance.namespace
          || secret.generation.Some?
      then Err(InvalidReference(KubeconfigSecretField, CredentialMismatch))
      else if |digest| != 64 || exists i :: 0 <= i < |digest| && !LowerHex(digest[i])
      then Err(InvalidReference(KubeconfigSha256Field, DigestNotSha256))
      else Ok(())
  }

  function ValidateScope(t: Target, p: Placement): Check {
    if Blank(t.namespace) then Err(InvalidReference(NamespaceField, EmptyTargetNamespace))
    else if p.Management? && (t.childLease.Some? || t.childInstance.Some? || t.kubeconfigSecret.Some?
        || t.kubeconfigSha256.Some?)
    then Err(UnexpectedChildReference)
    else if p.ChildCluster? && t.namespace != CHILD_NAMESPACE
    then Err(InvalidReference(NamespaceField, NotTheChildNamespace))
    else Ok(())
  }

  /** One line of the table of references, with what each must name. */
  datatype Entry = Entry(
    field: Field, reference: Option<Reference>, apiVersion: string, kind: string, namespace: string,
    generationRequired: bool)

  function Entries(t: Target, management: string): seq<Entry> {
    [Entry(ChildLeaseField, t.childLease, KOBE_API, "ClusterLease", management, true),
     Entry(ChildInstanceField, t.childInstance, KOBE_API, "ClusterInstance", management, true),
     Entry(KubeconfigSecretField, t.kubeconfigSecret, CORE_API, "Secret", management, false),
     Entry(TemplateField, t.template, AGENT_SANDBOX_API, "SandboxTemplate", t.namespace, false),
     Entry(WarmPoolField, t.warmPool, AGENT_SANDBOX_API, "SandboxWarmPool", t.namespace, false),
     Entry(ClaimField, t.claim, AGENT_SANDBOX_API, "SandboxClaim", t.namespace, false),
     Entry(SandboxField, t.sandbox, SANDBOX_API, "Sandbox", t.namespace, false),
     Entry(PodField, t.pod, CORE_API, "Pod", t.namespace, false),
     Entry(ServiceField, t.service, CORE_API, "Service", t.namespace, false)]
  }

  function ValidateEntry(e: Entry): Check {
    if e.reference.None? then Ok(())
    else ValidateReference(e.field, e.reference.value, e.apiVersion, e.kind, Some(e.namespace), e.generationRequired)
  }

  /** The loop over the table: the first failure, or none. */
  function ValidateEntries(es: seq<Entry>): Check {
    if es == [] then Ok(()) else Then(ValidateEntry(es[0]), ValidateEntries(es[1..]))
  }

  function ValidateTarget(t: Target, p: Placement, management: string): Check {
    Then(ValidateScope(t, p), Then(ValidateEntries(Entries(t, management)), ValidateCredential(t)))
  }

  /** What a reference must name. */
  datatype Shape = Shape(apiVersion: string, kind: string, namespace: string, generationRequired: bool)

  predicate Names(r: Option<Reference>, shape: Shape) {
    r.Some? ==>
      && r.value.apiVersion == shape.apiVersion && r.value.kind == shape.kind
      && !Blank(r.value.name) && !Blank(r.value.uid)
      && r.value.namespace == Some(shape.namespace) && shape.namespace != ""
      && (shape.generationRequired ==> r.value.generation.Some? && r.value.generation.value > 0)
  }

  /** The references of a target, by field. */
  function ReferenceAt(t: Target, f: Field): Option<Reference> {
    match f
    case ChildLeaseField => t.childLease
    case ChildInstanceField => t.childInstance
    case KubeconfigSecretField => t.kubeconfigSecret
    case TemplateField => t.template
    case WarmPoolField => t.warmPool
    case ClaimField => t.claim
    case SandboxField => t.sandbox
    case PodField => t.pod
    case ServiceField => t.service
    case _ => None
  }

  function ShapeAt(t: Target, f: Field, management: string): Shape {
    match f
    case ChildLeaseField => Shape("kobe.kunobi.ninja/v1alpha1", "ClusterLease", management, true)
    case ChildInstanceField => Shape("kobe.kunobi.ninja/v1alpha1", "ClusterInstance", management, true)
    case KubeconfigSecretField => Shape("v1", "Secret", management, false)
    case TemplateField => Shape("extensions.agents.x-k8s.io/v1beta1", "SandboxTemplate", t.namespace, false)
    case WarmPoolField => Shape("extensions.agents.x-k8s.io/v1beta1", "SandboxWarmPool", t.namespace, false)
    case ClaimField => Shape("extensions.agents.x-k8s.io/v1beta1", "SandboxClaim", t.namespace, false)
    case SandboxField => Shape("agents.x-k8s.io/v1beta1", "Sandbox", t.namespace, false)
    case PodField => Shape("v1", "Pod", t.namespace, false)
    case _ => Shape("v1", "Service", t.namespace, false)
  }

  /** A valid target, stated per field: the order of the checks is immaterial. */
  predicate WellFormed(t: Target, p: Placement, management: string) {
    && ScopeFits(t, p) && CredentialFits(t)
    && forall f: Field :: Names(ReferenceAt(t, f), ShapeAt(t, f, management))
  }

  /** Placement in a child cluster names the pool it came from. */
  predicate PlacementFits(p: Placement, management: string) {
    p.ChildCluster? ==> Names(Some(p.clusterPool), Shape("kobe.kunobi.ninja/v1alpha1", "ClusterPool", management, true))
  }

  /** What a reason says about a reference. */
  predicate ReferenceFault(r: Reference, shape: Shape, reason: Reason) {
    match reason
    case UnexpectedKind => r.apiVersion != shape.apiVersion || r.kind != shape.kind
    case NameAndUidRequired => Blank(r.name) || Blank(r.uid)
    case NamespaceRequired => r.namespace == None || r.namespace == Some("")
    case NamespaceMismatch => r.namespace != Some(shape.namespace)
    case PositiveGenerationRequired =>
      shape.generationRequired && !(r.generation.Some? && r.generation.value > 0)
    case _ => false
  }

  lemma ReferenceMeaning(field: Field, r: Reference, shape: Shape)
    ensures var check := ValidateReference(field, r, shape.apiVersion, shape.kind, Some(shape.namespace),
                                           shape.generationRequired);
            && (check.Ok? <==> Names(Some(r), shape))
            && (check.Err? ==> check.error.InvalidReference? && check.error.field == field
                               && ReferenceFault(r, shape, check.error.reason))
  {
    hide Blank;
  }

  lemma PlacementMeaning(p: Placement, management: string)
    ensures ValidatePlacement(p, management).Ok? <==> PlacementFits(p, management)
    ensures ValidatePlacement(p, management).Err? ==>
              var e := ValidatePlacement(p, management).error;
              && e.InvalidReference? && e.field == ClusterPoolField && p.ChildCluster?
              && ReferenceFault(p.clusterPool, Shape("kobe.kunobi.ninja/v1alpha1", "ClusterPool", management, true),
                                e.reason)
  {
    hide Names, ReferenceFault, ValidateReference;
    if p.ChildCluster? {
      ReferenceMeaning(ClusterPoolField, p.clusterPool,
                       Shape("kobe.kunobi.ninja/v1alpha1", "ClusterPool", management, true));
    }
  }

  /** What an error of validation says about a target. */
  predicate TargetFault(t: Target, p: Placement, management: string, e: ProvenanceError) {
    || ScopeFault(t, p, e)
    || (&& e.InvalidReference? && ReferenceAt(t, e.field).Some?
        && ReferenceFault(ReferenceAt(t, e.field).value, ShapeAt(t, e.field, management), e.reason))
    || (e.InvalidReference? && CredentialFault(t, e.field, e.reason))
  }

  predicate ScopeFault(t: Target, p: Placement, e: ProvenanceError) {
    || (&& e == UnexpectedChildReference && p.Management?
        && (t.childLease.Some? || t.childInstance.Some? || t.kubeconfigSecret.Some? || t.kubeconfigSha256.Some?))
    || (e == InvalidReference(NamespaceField, EmptyTargetNamespace) && Blank(t.namespace))
    || (&& e == InvalidReference(NamespaceField, NotTheChildNamespace)
        && p.ChildCluster? && t.namespace != "kobe-sandbox")
  }

  predicate CredentialFault(t: Target, f: Field, reason: Reason) {
    match reason
    case CredentialIncomplete => f == KubeconfigSecretField && t.kubeconfigSecret.Some? != t.kubeconfigSha256.Some?
    case CredentialWithoutInstance => f == KubeconfigSecretField && t.kubeconfigSecret.Some? && t.childInstance == None
    case CredentialMismatch =>
      && f == KubeconfigSecretField && t.kubeconfigSecret.Some? && t.childInstance.Some?
      && var secret, instance := t.kubeconfigSecret.value, t.childInstance.value;
         secret.name != instance.name + "-kubeconfig" || secret.namespace != instance.namespace
         || secret.generation.Some?
    case DigestNotSha256 =>
      f == KubeconfigSha256Field && t.kubeconfigSha256.Some? && !LowerSha256(t.kubeconfigSha256.value)
    case _ => false
  }

  predicate LowerSha256(s: string) { |s| == 64 && forall i :: 0 <= i < |s| ==> s[i] in "0123456789abcdef" }

  lemma LowerHexDigits(c: char)
    ensures LowerHex(c) <==> c in "0123456789abcdef"
  {
    var all := "0123456789abcdef";
    if LowerHex(c) {
      assert all[c as int - if c <= '9' then '0' as int else 'a' as int - 10] == c;
    }
  }

  /** The scope and credential checks, per placement. */
  predicate ScopeFits(t: Target, p: Placement) {
    && !Blank(t.namespace)
    && (match p
        case Management => t.childLease.None? && t.childInstance.None? && t.kubeconfigSecret.None?
            && t.kubeconfigSha256.None?
        case ChildCluster(_) => t.namespace == "kobe-sandbox")
  }

  predicate CredentialFits(t: Target) {
    && t.kubeconfigSecret.Some? == t.kubeconfigSha256.Some?
    && (t.kubeconfigSecret.Some? ==>
          && t.childInstance.Some? && t.kubeconfigSecret.value.name == t.childInstance.value.name + "-kubeconfig"
          && t.kubeconfigSecret.value.namespace == t.childInstance.value.namespace
          && t.kubeconfigSecret.value.generation.None? && LowerSha256(t.kubeconfigSha256.value))
  }

  lemma ScopeAndCredentialMeaning(t: Target, p: Placement)
    ensures ValidateScope(t, p).Ok? <==> ScopeFits(t, p)
    ensures ValidateCredential(t).Ok? <==> CredentialFits(t)
    ensures ValidateScope(t, p).Err? ==> ScopeFault(t, p, ValidateScope(t, p).error)
    ensures ValidateCredential(t).Err? ==>
              var e := ValidateCredential(t).error; e.InvalidReference? && CredentialFault(t, e.field, e.reason)
  {
    forall c ensures LowerHex(c) <==> c in "0123456789abcdef" { LowerHexDigits(c); }
    hide LowerHex, Blank, ReferenceFault;
  }

  predicate EntryFault(e: Entry, error: ProvenanceError) {
    && error.InvalidReference? && error.field == e.field && e.reference.Some?
    && ReferenceFault(e.reference.value, Shape(e.apiVersion, e.kind, e.namespace, e.generationRequired), error.reason)
  }

  lemma EntryMeaning(e: Entry)
    ensures ValidateEntry(e).Ok? <==> Names(e.reference, Shape(e.apiVersion, e.kind, e.namespace, e.generationRequired))
    ensures ValidateEntry(e).Err? ==> EntryFault(e, ValidateEntry(e).error)
  {
    hide ReferenceFault, ValidateReference;
    if e.reference.Some? {
      ReferenceMeaning(e.field, e.reference.value, Shape(e.apiVersion, e.kind, e.namespace, e.generationRequired));
    }
  }

  lemma {:induction false} EntriesMeaning(es: seq<Entry>)
    ensures ValidateEntries(es).Ok? <==> forall i :: 0 <= i < |es| ==> ValidateEntry(es[i]).Ok?
    ensures ValidateEntries(es).Err? ==> exists i :: 0 <= i < |es| && ValidateEntry(es[i]) == ValidateEntries(es)
  {
    hide ValidateEntry;
    if es != [] {
      EntriesMeaning(es[1..]);
      assert forall i :: 0 <= i < |es| - 1 ==> es[1..][i] == es[i + 1];
      if ValidateEntry(es[0]).Ok? && ValidateEntries(es[1..]).Err? {
        var i :| 0 <= i < |es[1..]| && ValidateEntry(es[1..][i]) == ValidateEntries(es[1..]);
        assert ValidateEntry(es[i + 1]) == ValidateEntries(es);
      }
    }
  }

  /** The table says what each field must name, and leaves no reference out. */
  lemma TableByField(t: Target, management: string, i: nat)
    requires i < |Entries(t, management)|
    ensures var e := Entries(t, management)[i];
            && e.reference == ReferenceAt(t, e.field)
            && Shape(e.apiVersion, e.kind, e.namespace, e.generationRequired) == ShapeAt(t, e.field, management)
  {}

  function Row(f: Field): int {
    match f
    case ChildLeaseField => 0
    case ChildInstanceField => 1
    case KubeconfigSecretField => 2
    case TemplateField => 3
    case WarmPoolField => 4
    case ClaimField => 5
    case SandboxField => 6
    case PodField => 7
    case ServiceField => 8
    case _ => -1
  }

  lemma TableIsComplete(t: Target, management: string, f: Field)
    requires ReferenceAt(t, f).Some?
    ensures 0 <= Row(f) < |Entries(t, management)| && Entries(t, management)[Row(f)].field == f
  {}

  lemma TableMeaning(t: Target, management: string)
    ensures ValidateEntries(Entries(t, management)).Ok? <==>
            forall f: Field :: Names(ReferenceAt(t, f), ShapeAt(t, f, management))
    ensures ValidateEntries(Entries(t, management)).Err? ==>
              var e := ValidateEntries(Entries(t, management)).error;
              && e.InvalidReference? && ReferenceAt(t, e.field).Some?
              && ReferenceFault(ReferenceAt(t, e.field).value, ShapeAt(t, e.field, management), e.reason)
  {
    hide Entries, ValidateEntry, ValidateEntries, ReferenceAt, ShapeAt, ReferenceFault;
    var es := Entries(t, management);
    EntriesMeaning(es);
    forall i | 0 <= i < |es|
      ensures ValidateEntry(es[i]).Ok? <==> Names(ReferenceAt(t, es[i].field), ShapeAt(t, es[i].field, management))
      ensures ValidateEntry(es[i]).Err? ==> EntryFault(es[i], ValidateEntry(es[i]).error)
    {
      TableByField(t, management, i);
      EntryMeaning(es[i]);
    }
    forall f: Field | ReferenceAt(t, f).Some? ensures exists i :: 0 <= i < |es| && es[i].field == f {
      TableIsComplete(t, management, f);
    }
    if ValidateEntries(es).Err? {
      var i :| 0 <= i < |es| && ValidateEntry(es[i]) == ValidateEntries(es);
      TableByField(t, management, i);
    }
  }

  /** The checks accept exactly the well-formed targets, and an error names a fault the target has. */
  lemma ValidTargetMeaning(t: Target, p: Placement, management: string)
    ensures ValidateTarget(t, p, management).Ok? <==> WellFormed(t, p, management)
    ensures ValidateTarget(t, p, management).Err? ==>
              TargetFault(t, p, management, ValidateTarget(t, p, management).error)
  {
    ScopeAndCredentialMeaning(t, p);
    TableMeaning(t, management);
    hide Entries, ValidateEntries, ValidateScope, ValidateCredential, ScopeFits, CredentialFits, Names, ReferenceAt,
         ShapeAt, ReferenceFault, CredentialFault, ScopeFault;
  }

  // ---------------------------------------------------------------- placement

  function RecordPlacementOnce(existing: Option<Placement>, proposed: Placement, management: string)
    : Result<Placement, ProvenanceError>
  {
    Then(ValidatePlacement(proposed, management),
         if existing.None? then Ok(proposed)
         else if existing.value == proposed then Then(ValidatePlacement(existing.value, management), Ok(existing.value))
         else Err(PlacementChanged))
  }

  /** The first placement that fits is recorded as proposed; after that only the same one is accepted. */
  lemma RecordMeaning(existing: Option<Placement>, proposed: Placement, management: string)
    ensures RecordPlacementOnce(existing, proposed, management) ==
            if !PlacementFits(proposed, management) then Err(ValidatePlacement(proposed, management).error)
            else if existing.None? || existing == Some(proposed) then Ok(proposed)
            else Err(PlacementChanged)
  {
    PlacementMeaning(proposed, management);
    hide ValidatePlacement, PlacementFits;
  }

  // ---------------------------------------------------------------- merging

  function MergeOption<T(==)>(field: Field, existing: Option<T>, proposed: Option<T>)
    : Result<Option<T>, ProvenanceError>
  {
    if existing.None? then Ok(proposed)
    else if proposed.None? then Err(ReferenceCleared(field))
    else if existing == proposed then Ok(existing)
    else Err(ReferenceChanged(field))
  }

  function AppendOnly(existing: seq<Reference>, proposed: seq<Reference>): (r: seq<Reference>)
    decreases |proposed|
  {
    if proposed == [] then existing
    else
      var r := AppendOnly(existing, proposed[..|proposed| - 1]);
      var last := proposed[|proposed| - 1];
      if last in r then r else r + [last]
  }

  method MergeAppendOnly(existing: seq<Reference>, proposed: seq<Reference>) returns (merged: seq<Reference>)
    ensures merged == AppendOnly(existing, proposed)
  {
    merged := existing;
    for i := 0 to |proposed|
      invariant merged == AppendOnly(existing, proposed[..i])
    {
      assert proposed[..i + 1][..i] == proposed[..i];
      if proposed[i] !in merged { merged := merged + [proposed[i]]; }
    }
    assert proposed[..|proposed|] == proposed;
  }

  function Failed<T>(r: Result<T, ProvenanceError>): Check { if r.Err? then Err(r.error) else Ok(()) }

  function MergeTarget(existing: Option<Target>, proposed: Target, p: Placement, management: string)
    : Result<Target, ProvenanceError>
  {
    Then(ValidatePlacement(p, management),
    Then(ValidateTarget(proposed, p, management),
         if existing.None? then Ok(proposed)
         else
           var e := existing.value;
           Then(ValidateTarget(e, p, management),
                if e.namespace != proposed.namespace then Err(NamespaceChanged) else MergeFields(e, proposed))))
  }

  function MergeFields(e: Target, p: Target): Result<Target, ProvenanceError> {
    var childLease := MergeOption(ChildLeaseField, e.childLease, p.childLease);
    var childInstance := MergeOption(ChildInstanceField, e.childInstance, p.childInstance);
    var secret := MergeOption(KubeconfigSecretField, e.kubeconfigSecret, p.kubeconfigSecret);
    var sha := MergeOption(KubeconfigSha256Field, e.kubeconfigSha256, p.kubeconfigSha256);
    var template := MergeOption(TemplateField, e.template, p.template);
    var warmPool := MergeOption(WarmPoolField, e.warmPool, p.warmPool);
    var claim := MergeOption(ClaimField, e.claim, p.claim);
    var sandbox := MergeOption(SandboxField, e.sandbox, p.sandbox);
    var pod := MergeOption(PodField, e.pod, p.pod);
    var service := MergeOption(ServiceField, e.service, p.service);
    var serviceRequired := MergeOption(ServiceRequiredField, e.serviceRequired, p.serviceRequired);
    var volumeRequired := MergeOption(WorkspaceVolumeRequiredField, e.workspaceVolumeRequired,
        p.workspaceVolumeRequired);
    var failed :=
      Then(Failed(childLease), Then(Failed(childInstance), Then(Failed(secret), Then(Failed(sha),
      Then(Failed(template), Then(Failed(warmPool), Then(Failed(claim), Then(Failed(sandbox),
      Then(Failed(pod), Then(Failed(service), Then(Failed(serviceRequired), Failed(volumeRequired))))))))))));
    if failed.Err? then Err(failed.error)
    else Ok(Target(e.namespace, childLease.value, childInstance.value, secret.value, sha.value, template.value,
                   warmPool.value, claim.value, sandbox.value, pod.value,
                   AppendOnly(e.replacementPods, p.replacementPods),
                   service.value, serviceRequired.value, volumeRequired.value))
  }

  // ---------------------------------------------------------------- the order of knowledge

  predicate Repeats<T(==)>(known: Option<T>, later: Option<T>) { known.Some? ==> later == known }

  /** Every recorded field of `a` reads the same in `b`. */
  predicate FieldsRepeated(a: Target, b: Target) {
    && Repeats(a.childLease, b.childLease) && Repeats(a.childInstance, b.childInstance)
    && Repeats(a.kubeconfigSecret, b.kubeconfigSecret) && Repeats(a.kubeconfigSha256, b.kubeconfigSha256)
    && Repeats(a.template, b.template) && Repeats(a.warmPool, b.warmPool) && Repeats(a.claim, b.claim)
    && Repeats(a.sandbox, b.sandbox) && Repeats(a.pod, b.pod) && Repeats(a.service, b.service)
    && Repeats(a.serviceRequired, b.serviceRequired) && Repeats(a.workspaceVolumeRequired, b.workspaceVolumeRequired)
  }

  /** `b` knows everything `a` knows. */
  predicate Extends(a: Target, b: Target) {
    a.namespace == b.namespace && FieldsRepeated(a, b) && a.replacementPods <= b.replacementPods
  }

  /** The merged list keeps what was there, in place, and adds each new reference once. */
  lemma {:induction false} AppendOnlyMeaning(existing: seq<Reference>, proposed: seq<Reference>)
    ensures existing <= AppendOnly(existing, proposed)
    ensures forall x :: x in AppendOnly(existing, proposed) <==> x in existing || x in proposed
    ensures forall i, j :: 0 <= i < j < |AppendOnly(existing, proposed)| && |existing| <= j ==>
              AppendOnly(existing, proposed)[i] != AppendOnly(existing, proposed)[j]
    decreases |proposed|
  {
    if proposed != [] {
      var init, last := proposed[..|proposed| - 1], proposed[|proposed| - 1];
      AppendOnlyMeaning(existing, init);
      assert forall x :: x in proposed <==> x in init || x == last;
    }
  }

  lemma {:induction false} AppendOnlySettled(existing: seq<Reference>, proposed: seq<Reference>)
    requires forall i :: 0 <= i < |proposed| ==> proposed[i] in existing
    ensures AppendOnly(existing, proposed) == existing
    decreases |proposed|
  {
    if proposed != [] { AppendOnlySettled(existing, proposed[..|proposed| - 1]); }
  }

  lemma MergeOptionMeaning<T>(field: Field, existing: Option<T>, proposed: Option<T>)
    ensures MergeOption(field, existing, proposed).Ok? <==> Repeats(existing, proposed)
    ensures MergeOption(field, existing, proposed).Ok? ==> MergeOption(field, existing, proposed).value == proposed
  {}

  /** Merging fields succeeds exactly when the proposal repeats all that is recorded, and then is
      the proposal itself but for the append-only list. */
  lemma MergeFieldsMeaning(e: Target, p: Target)
    requires e.namespace == p.namespace
    ensures MergeFields(e, p).Ok? <==> FieldsRepeated(e, p)
    ensures MergeFields(e, p).Ok? ==>
              MergeFields(e, p).value == p.(replacementPods := AppendOnly(e.replacementPods, p.replacementPods))
  {
    hide AppendOnly, MergeOption, Repeats;
    MergeOptionMeaning(ChildLeaseField, e.childLease, p.childLease);
    MergeOptionMeaning(ChildInstanceField, e.childInstance, p.childInstance);
    MergeOptionMeaning(KubeconfigSecretField, e.kubeconfigSecret, p.kubeconfigSecret);
    MergeOptionMeaning(KubeconfigSha256Field, e.kubeconfigSha256, p.kubeconfigSha256);
    MergeOptionMeaning(TemplateField, e.template, p.template);
    MergeOptionMeaning(WarmPoolField, e.warmPool, p.warmPool);
    MergeOptionMeaning(ClaimField, e.claim, p.claim);
    MergeOptionMeaning(SandboxField, e.sandbox, p.sandbox);
    MergeOptionMeaning(PodField, e.pod, p.pod);
    MergeOptionMeaning(ServiceField, e.service, p.service);
    MergeOptionMeaning(ServiceRequiredField, e.serviceRequired, p.serviceRequired);
    MergeOptionMeaning(WorkspaceVolumeRequiredField, e.workspaceVolumeRequired, p.workspaceVolumeRequired);
  }

  /** Validation never looks at replacement Pods. */
  lemma ReplacementPodsUnchecked(t: Target, pods: seq<Reference>, p: Placement, management: string)
    ensures ValidateTarget(t.(replacementPods := pods), p, management) == ValidateTarget(t, p, management)
  {
    var u := t.(replacementPods := pods);
    assert ValidateScope(u, p) == ValidateScope(t, p) && ValidateCredential(u) == ValidateCredential(t);
    hide ValidateEntries, ValidateScope, ValidateCredential;
  }

  /** A merge succeeds exactly so. With nothing on record the proposal is recorded as it is; otherwise it
      must repeat what is known, and is recorded with the Pods known before. */
  lemma MergeSucceedsIff(existing: Option<Target>, proposed: Target, p: Placement, management: string, r: Target)
    ensures MergeTarget(existing, proposed, p, management) == Ok(r) <==>
            && PlacementFits(p, management) && WellFormed(proposed, p, management)
            && match existing
               case None => r == proposed
               case Some(e) =>
                 && WellFormed(e, p, management) && e.namespace == proposed.namespace && FieldsRepeated(e, proposed)
                 && r == proposed.(replacementPods := AppendOnly(e.replacementPods, proposed.replacementPods))
  {
    PlacementMeaning(p, management);
    ValidTargetMeaning(proposed, p, management);
    if existing.Some? {
      ValidTargetMeaning(existing.value, p, management);
      if existing.value.namespace == proposed.namespace { MergeFieldsMeaning(existing.value, proposed); }
    }
    hide ValidateTarget, ValidatePlacement, WellFormed, PlacementFits, MergeFields, FieldsRepeated, AppendOnly,
         TargetFault, ReferenceFault;
  }

  /** The outcome extends what was known, is itself well formed, and holds every proposed Pod. */
  lemma MergeExtends(e: Target, proposed: Target, p: Placement, management: string)
    requires MergeTarget(Some(e), proposed, p, management).Ok?
    ensures var r := MergeTarget(Some(e), proposed, p, management).value;
            && Extends(e, r) && WellFormed(r, p, management)
            && (forall x :: x in proposed.replacementPods ==> x in r.replacementPods)
  {
    var r := MergeTarget(Some(e), proposed, p, management).value;
    MergeSucceedsIff(Some(e), proposed, p, management, r);
    AppendOnlyMeaning(e.replacementPods, proposed.replacementPods);
    ReplacementPodsUnchecked(proposed, r.replacementPods, p, management);
    ValidTargetMeaning(proposed, p, management);
    ValidTargetMeaning(r, p, management);
    hide WellFormed, ValidateTarget, MergeTarget, AppendOnly, PlacementFits, TargetFault;
  }

  /** What is known in one field of a target. */
  datatype Known = Object(r: Reference) | Digest(s: string) | Flag(b: bool)

  function KnownAt(t: Target, f: Field): Option<Known> {
    match f
    case KubeconfigSha256Field => if t.kubeconfigSha256.Some? then Some(Digest(t.kubeconfigSha256.value)) else None
    case ServiceRequiredField => if t.serviceRequired.Some? then Some(Flag(t.serviceRequired.value)) else None
    case WorkspaceVolumeRequiredField =>
      if t.workspaceVolumeRequired.Some? then Some(Flag(t.workspaceVolumeRequired.value)) else None
    case _ => if ReferenceAt(t, f).Some? then Some(Object(ReferenceAt(t, f).value)) else None
  }

  /** An error of merging names a field that the proposal clears or changes. */
  predicate MergeFault(e: Target, p: Target, error: ProvenanceError) {
    match error
    case ReferenceCleared(f) => KnownAt(e, f).Some? && KnownAt(p, f) == None
    case ReferenceChanged(f) => KnownAt(e, f).Some? && KnownAt(p, f).Some? && KnownAt(e, f) != KnownAt(p, f)
    case _ => false
  }

  lemma MergeOptionErrors<T>(field: Field, existing: Option<T>, proposed: Option<T>)
    requires MergeOption(field, existing, proposed).Err?
    ensures existing.Some? && existing != proposed
    ensures MergeOption(field, existing, proposed).error ==
            if proposed.None? then ReferenceCleared(field) else ReferenceChanged(field)
  {}

  lemma MergeFieldErrors(e: Target, p: Target)
    requires MergeFields(e, p).Err?
    ensures MergeFault(e, p, MergeFields(e, p).error)
  {
    hide AppendOnly, MergeOption;
    if MergeOption(ChildLeaseField, e.childLease, p.childLease).Err? {
      MergeOptionErrors(ChildLeaseField, e.childLease, p.childLease);
    } else if MergeOption(ChildInstanceField, e.childInstance, p.childInstance).Err? {
      MergeOptionErrors(ChildInstanceField, e.childInstance, p.childInstance);
    } else if MergeOption(KubeconfigSecretField, e.kubeconfigSecret, p.kubeconfigSecret).Err? {
      MergeOptionErrors(KubeconfigSecretField, e.kubeconfigSecret, p.kubeconfigSecret);
    } else if MergeOption(KubeconfigSha256Field, e.kubeconfigSha256, p.kubeconfigSha256).Err? {
      MergeOptionErrors(KubeconfigSha256Field, e.kubeconfigSha256, p.kubeconfigSha256);
    } else if MergeOption(TemplateField, e.template, p.template).Err? {
      MergeOptionErrors(TemplateField, e.template, p.template);
    } else if MergeOption(WarmPoolField, e.warmPool, p.warmPool).Err? {
      MergeOptionErrors(WarmPoolField, e.warmPool, p.warmPool);
    } else {
      LaterFieldErrors(e, p);
    }
  }

  lemma LaterFieldErrors(e: Target, p: Target)
    requires MergeFields(e, p).Err?
    requires MergeOption(ChildLeaseField, e.childLease, p.childLease).Ok?
    requires MergeOption(ChildInstanceField, e.childInstance, p.childInstance).Ok?
    requires MergeOption(KubeconfigSecretField, e.kubeconfigSecret, p.kubeconfigSecret).Ok?
    requires MergeOption(KubeconfigSha256Field, e.kubeconfigSha256, p.kubeconfigSha256).Ok?
    requires MergeOption(TemplateField, e.template, p.template).Ok?
    requires MergeOption(WarmPoolField, e.warmPool, p.warmPool).Ok?
    ensures MergeFault(e, p, MergeFields(e, p).error)
  {
    hide AppendOnly, MergeOption;
    if MergeOption(ClaimField, e.claim, p.claim).Err? {
      MergeOptionErrors(ClaimField, e.claim, p.claim);
    } else if MergeOption(SandboxField, e.sandbox, p.sandbox).Err? {
      MergeOptionErrors(SandboxField, e.sandbox, p.sandbox);
    } else if MergeOption(PodField, e.pod, p.pod).Err? {
      MergeOptionErrors(PodField, e.pod, p.pod);
    } else if MergeOption(ServiceField, e.service, p.service).Err? {
      MergeOptionErrors(ServiceField, e.service, p.service);
    } else if MergeOption(ServiceRequiredField, e.serviceRequired, p.serviceRequired).Err? {
      MergeOptionErrors(ServiceRequiredField, e.serviceRequired, p.serviceRequired);
    } else {
      MergeOptionErrors(WorkspaceVolumeRequiredField, e.workspaceVolumeRequired, p.workspaceVolumeRequired);
    }
  }

  /** Every error of a merge says something true of what was on record or proposed. */
  lemma MergeErrors(existing: Option<Target>, proposed: Target, p: Placement, management: string)
    requires MergeTarget(existing, proposed, p, management).Err?
    ensures var error := MergeTarget(existing, proposed, p, management).error;
            || (!PlacementFits(p, management) && ValidatePlacement(p, management) == Err(error))
            || TargetFault(proposed, p, management, error)
            || (existing.Some? &&
                (|| TargetFault(existing.value, p, management, error)
                 || (error == NamespaceChanged && existing.value.namespace != proposed.namespace)
                 || MergeFault(existing.value, proposed, error)))
  {
    PlacementMeaning(p, management);
    ValidTargetMeaning(proposed, p, management);
    if existing.Some? {
      ValidTargetMeaning(existing.value, p, management);
      if MergeFields(existing.value, proposed).Err? { MergeFieldErrors(existing.value, proposed); }
    }
    hide ValidateTarget, ValidatePlacement, WellFormed, PlacementFits, MergeFields, TargetFault, ReferenceFault,
         MergeFault;
  }

  /** A retried merge changes nothing. */
  lemma MergeRetryIsIdentity(existing: Option<Target>, proposed: Target, p: Placement, management: string)
    requires MergeTarget(existing, proposed, p, management).Ok?
    ensures var r := MergeTarget(existing, proposed, p, management).value;
            && MergeTarget(Some(r), proposed, p, management) == Ok(r)
            && MergeTarget(Some(r), r, p, management) == Ok(r)
  {
    hide MergeTarget, WellFormed, PlacementFits, AppendOnly;
    var r := MergeTarget(existing, proposed, p, management).value;
    MergeSucceedsIff(existing, proposed, p, management, r);
    if existing.Some? { MergeExtends(existing.value, proposed, p, management); }
    AppendOnlySettled(r.replacementPods, proposed.replacementPods);
    AppendOnlySettled(r.replacementPods, r.replacementPods);
    MergeSucceedsIff(Some(r), proposed, p, management, r);
    MergeSucceedsIff(Some(r), r, p, management, r);
  }

  // ---------------------------------------------------------------- runs

  datatype Status = Status(placement: Option<Placement>, target: Option<Target>)

  datatype Step = Record(placement: Placement) | Merge(target: Target)

  /** A refused write leaves the status as it was. */
  function Apply(s: Status, step: Step, management: string): Status {
    match step
    case Record(p) =>
      var r := RecordPlacementOnce(s.placement, p, management);
      if r.Ok? then s.(placement := Some(r.value)) else s
    case Merge(t) =>
      if s.placement.None? then s
      else
        var r := MergeTarget(s.target, t, s.placement.value, management);
        if r.Ok? then s.(target := Some(r.value)) else s
  }

  function After(s: Status, steps: seq<Step>, management: string): Status {
    if steps == [] then s else Apply(After(s, steps[..|steps| - 1], management), steps[|steps| - 1], management)
  }

  function RequireReleaseSafe(s: Status, management: string): Result<Target, ProvenanceError> {
    if s.placement.None? then Err(UnresolvedPlacement)
    else Then(ValidatePlacement(s.placement.value, management),
      if s.target.None? then Err(MissingTargetProvenance)
      else
        var p, t := s.placement.value, s.target.value;
        Then(ValidateTarget(t, p, management),
          if p.Management? && t.namespace != management then
            Err(InvalidReference(NamespaceField, NotTheOperatorNamespace))
          else if p.ChildCluster? && (t.childLease.None? || t.childInstance.None?) then Err(IncompleteChildProvenance)
          else Ok(t)))
  }

  /** Later status knows everything earlier status knew. */
  predicate Grows(a: Status, b: Status) {
    && (a.placement.Some? ==> b.placement == a.placement)
    && (a.target.Some? ==> b.target.Some? && Extends(a.target.value, b.target.value))
  }

  lemma ApplyGrows(s: Status, step: Step, management: string)
    ensures Grows(s, Apply(s, step, management))
  {
    hide MergeTarget, WellFormed, PlacementFits, Extends;
    if s.target.Some? { ExtendsItself(s.target.value); }
    match step
    case Record(p) => RecordMeaning(s.placement, p, management);
    case Merge(t) =>
      if s.target.Some? && s.placement.Some? && MergeTarget(s.target, t, s.placement.value, management).Ok? {
        MergeExtends(s.target.value, t, s.placement.value, management);
      }
  }

  lemma ExtendsItself(t: Target)
    ensures Extends(t, t)
  {}

  /** At every point of every run: the first fitting placement and then the first well-formed target are
      recorded exactly as proposed, and a placement is never replaced. */
  lemma FirstWritesAreRecorded(steps: seq<Step>, step: Step, management: string)
    ensures var s, s' := After(Status(None, None), steps, management),
                         After(Status(None, None), steps + [step], management);
            && (step.Record? ==>
                  s' == if s.placement.None? && PlacementFits(step.placement, management)
                        then s.(placement := Some(step.placement)) else s)
            && (step.Merge? && s.target.None? ==>
                  s' == if s.placement.Some? && WellFormed(step.target, s.placement.value, management)
                        then s.(target := Some(step.target)) else s)
  {
    hide MergeTarget, WellFormed, PlacementFits;
    var s := After(Status(None, None), steps, management);
    assert (steps + [step])[..|steps|] == steps;
    assert After(Status(None, None), steps + [step], management) == Apply(s, step, management);
    match step
    case Record(p) =>
      RecordMeaning(s.placement, p, management);
      assert s == Status(s.placement, s.target);
    case Merge(t) =>
      RunPlacementFits(steps, management);
      if s.placement.Some? && s.target.None? {
        var r := MergeTarget(s.target, t, s.placement.value, management);
        MergeSucceedsIff(s.target, t, s.placement.value, management, t);
        if r.Ok? { MergeSucceedsIff(s.target, t, s.placement.value, management, r.value); }
      }
  }

  lemma {:induction false} RunPlacementFits(steps: seq<Step>, management: string)
    ensures var p := After(Status(None, None), steps, management).placement;
            p.Some? ==> PlacementFits(p.value, management)
  {
    if steps != [] {
      hide PlacementFits;
      var s := After(Status(None, None), steps[..|steps| - 1], management);
      RunPlacementFits(steps[..|steps| - 1], management);
      if steps[|steps| - 1].Record? { RecordMeaning(s.placement, steps[|steps| - 1].placement, management); }
    }
  }

  /** The first placement of a run's proposals that fits. */
  function FirstFitting(steps: seq<Step>, management: string): Option<Placement> {
    if steps == [] then None
    else
      var before, last := FirstFitting(steps[..|steps| - 1], management), steps[|steps| - 1];
      if before.Some? then before
      else if last.Record? && PlacementFits(last.placement, management) then Some(last.placement) else None
  }

  /** The placement on record is the first fitting one that was ever proposed, whatever came after. */
  lemma {:induction false} RunKeepsFirstPlacement(steps: seq<Step>, management: string)
    ensures After(Status(None, None), steps, management).placement == FirstFitting(steps, management)
  {
    if steps != [] {
      hide PlacementFits, MergeTarget;
      var s := After(Status(None, None), steps[..|steps| - 1], management);
      RunKeepsFirstPlacement(steps[..|steps| - 1], management);
      RunPlacementFits(steps[..|steps| - 1], management);
      if steps[|steps| - 1].Record? { RecordMeaning(s.placement, steps[|steps| - 1].placement, management); }
    }
  }

  /** Recorded identities form an increasing chain over every run of writes, accepted or refused. */
  lemma {:induction false} RunOnlyGrows(s: Status, steps: seq<Step>, i: nat, management: string)
    requires i <= |steps|
    ensures Grows(After(s, steps[..i], management), After(s, steps, management))
    decreases |steps| - i
  {
    hide Apply, Grows;
    if i == |steps| {
      assert steps[..i] == steps;
      GrowsReflexive(After(s, steps, management));
    } else {
      var a, b, c := After(s, steps[..i], management), After(s, steps[..i + 1], management),
          After(s, steps, management);
      assert steps[..i + 1][..i] == steps[..i];
      ApplyGrows(a, steps[i], management);
      RunOnlyGrows(s, steps, i + 1, management);
      GrowsTransitive(a, b, c);
    }
  }

  lemma GrowsReflexive(a: Status) ensures Grows(a, a) {}

  lemma GrowsTransitive(a: Status, b: Status, c: Status)
    requires Grows(a, b) && Grows(b, c)
    ensures Grows(a, c)
  {}

  lemma ApplyKeepsReleaseSafe(s: Status, step: Step, management: string)
    requires RequireReleaseSafe(s, management).Ok?
    ensures RequireReleaseSafe(Apply(s, step, management), management).Ok?
  {
    hide ValidateTarget, MergeTarget, WellFormed, PlacementFits, ValidatePlacement, TargetFault;
    match step
    case Record(p) => RecordMeaning(s.placement, p, management);
    case Merge(t) =>
      if MergeTarget(s.target, t, s.placement.value, management).Ok? {
        var r := MergeTarget(s.target, t, s.placement.value, management).value;
        MergeExtends(s.target.value, t, s.placement.value, management);
        ValidTargetMeaning(r, s.placement.value, management);
      }
  }

  /** What a release may rest on: one placement, and a target that can belong to no other. */
  lemma ReleaseSafeMeaning(s: Status, management: string, t: Target)
    ensures RequireReleaseSafe(s, management) == Ok(t) <==>
            && s.placement.Some? && PlacementFits(s.placement.value, management) && s.target == Some(t)
            && WellFormed(t, s.placement.value, management)
            && match s.placement.value
               case Management => t.namespace == management && t.childLease.None? && t.childInstance.None?
               case ChildCluster(_) => t.namespace == "kobe-sandbox" && t.childLease.Some? && t.childInstance.Some?
  {
    if s.placement.Some? {
      PlacementMeaning(s.placement.value, management);
      ValidTargetMeaning(t, s.placement.value, management);
    }
    hide ValidateTarget, ValidatePlacement, PlacementFits, Names, CredentialFits, TargetFault, ReferenceFault;
  }

  /** Why a status is not release-safe. */
  lemma ReleaseErrors(s: Status, management: string)
    requires RequireReleaseSafe(s, management).Err?
    ensures var e := RequireReleaseSafe(s, management).error;
            if s.placement.None? then e == UnresolvedPlacement
            else if !PlacementFits(s.placement.value, management)
            then ValidatePlacement(s.placement.value, management) == Err(e)
            else if s.target.None? then e == MissingTargetProvenance
            else if !WellFormed(s.target.value, s.placement.value, management)
            then ValidateTarget(s.target.value, s.placement.value, management) == Err(e)
            else if s.placement.value.Management? then e == InvalidReference(NamespaceField, NotTheOperatorNamespace)
            else e == IncompleteChildProvenance
  {
    if s.placement.Some? {
      PlacementMeaning(s.placement.value, management);
      if s.target.Some? { ValidTargetMeaning(s.target.value, s.placement.value, management); }
    }
    hide ValidateTarget, ValidatePlacement, PlacementFits, WellFormed, TargetFault, ReferenceFault;
  }

  /** Nor does release safety depend on replacement Pods: a status with a malformed one is release-safe. */
  lemma ReleaseSafetyIgnoresPods(s: Status, t: Target, pods: seq<Reference>, management: string)
    requires s.target == Some(t)
    ensures RequireReleaseSafe(s.(target := Some(t.(replacementPods := pods))), management).Ok? <==>
            RequireReleaseSafe(s, management).Ok?
  {
    if s.placement.Some? { ReplacementPodsUnchecked(t, pods, s.placement.value, management); }
    hide ValidateTarget, ValidatePlacement;
  }

  lemma MalformedPodIsReleaseSafe(management: string)
    requires !Blank(management)
    ensures var pod := Reference("", "", None, "", "", None);
            var bare := Target(management, None, None, None, None, None, None, None, None, None,
                               [pod], None, None, None);
            && RequireReleaseSafe(Status(Some(Management), Some(bare)), management) == Ok(bare)
            && !Names(Some(pod), Shape("v1", "Pod", management, false))
  {
    var pod := Reference("", "", None, "", "", None);
    var bare := Target(management, None, None, None, None, None, None, None, None, None, [pod], None, None, None);
    ReleaseSafeMeaning(Status(Some(Management), Some(bare)), management, bare);
    hide RequireReleaseSafe, ShapeAt;
  }

  /** Release safety, once reached, is never lost, and the teardown path it selected never changes:
      same placement, and every identity the release rests on still on record. */
  lemma ReleaseSafetyPersists(s: Status, steps: seq<Step>, management: string)
    requires RequireReleaseSafe(s, management).Ok?
    ensures var s' := After(s, steps, management);
            && RequireReleaseSafe(s', management).Ok? && s'.placement == s.placement
            && Extends(RequireReleaseSafe(s, management).value, RequireReleaseSafe(s', management).value)
  {
    hide Apply, Extends;
    ReleaseSafetyKept(s, steps, management);
    assert steps[..0] == [];
    RunOnlyGrows(s, steps, 0, management);
    ReleaseSafeMeaning(s, management, RequireReleaseSafe(s, management).value);
    var s' := After(s, steps, management);
    ReleaseSafeMeaning(s', management, RequireReleaseSafe(s', management).value);
  }

  lemma {:induction false} ReleaseSafetyKept(s: Status, steps: seq<Step>, management: string)
    requires RequireReleaseSafe(s, management).Ok?
    ensures RequireReleaseSafe(After(s, steps, management), management).Ok?
  {
    if steps != [] {
      ReleaseSafetyKept(s, steps[..|steps| - 1], management);
      ApplyKeepsReleaseSafe(After(s, steps[..|steps| - 1], management), steps[|steps| - 1], management);
    }
  }
}
