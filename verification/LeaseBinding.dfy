/**
 UID-fenced lease/instance resolution and its teardown dual. Lookups read one snapshot of the API
 server: objects by name, names whose lookup fails, and the clock.
 */
module LeaseBinding {
  import opened Common
  import opened Text

  // ---------------------------------------------------------------- objects

  datatype Ref = Ref(name: string, uid: Option<string>)
  datatype BoundInstance = BoundInstance(name: string, uid: string, observedGeneration: int)
  datatype Backend = Backend(backendType: string, configDigest: string, capi: Option<string>)
  datatype Identity = Identity(apiVersion: string, kind: string, namespace: Option<string>, name: string, uid: string)

  /** A sealed creation manifest; `valid` and `digest` are its own verdicts on itself. */
  datatype Manifest = Manifest(
    valid: bool, digest: Option<string>, namespace: string, instance: Ref, backendType: string, configDigest: string)

  datatype Binding = Binding(
    bindingId: string,
    lease: Ref,
    instance: BoundInstance,
    pool: Ref,
    backend: Backend,
    instanceSpecDigest: string,
    requiresReceipt: bool,
    manifestDigest: Option<string>,
    manifest: Option<Manifest>,
    connectToken: Option<Identity>)

  datatype Stamp = At(t: int) | Garbled(text: string)

  datatype LeasePhase = Pending | Bound | Released | Expired | Recycling | Quarantined
  datatype LeaseStatus = LeaseStatus(
    phase: LeasePhase, clusterName: Option<string>, binding: Option<Binding>, expiresAt: Option<Stamp>)
  datatype Lease = Lease(name: string, uid: Option<string>, deleting: bool, poolRef: string,
      status: Option<LeaseStatus>)

  datatype InstancePhase = Creating | Ready | Leased | InstanceRecycling | Unhealthy | Failed | InstanceQuarantined
  datatype CreatedWith = CreatedWith(poolUid: Option<string>, backend: Option<Backend>, backendType: Option<string>)
  datatype InstanceStatus = InstanceStatus(
    phase: InstancePhase, binding: Option<Binding>, leaseRef: Option<Ref>, specHash: Option<string>,
    createdWith: Option<CreatedWith>)
  datatype Owner = Owner(apiVersion: string, kind: string, name: string, uid: string)
  datatype Instance = Instance(
    name: string, uid: Option<string>, generation: Option<int>, deleting: bool, owners: seq<Owner>,
    poolRef: Option<Ref>, status: Option<InstanceStatus>)

  /** `backend` is the provenance of the pool's current configuration, when it can be computed. */
  datatype Pool = Pool(name: string, uid: Option<string>, deleting: bool, backend: Option<Backend>)

  datatype Kind = Leases | Instances | Pools

  datatype Snapshot = Snapshot(
    namespace: string,
    leases: map<string, Lease>,
    instances: map<string, Instance>,
    pools: map<string, Pool>,
    unreadable: set<(Kind, string)>,
    now: int)

  datatype Mode = Access | Lifecycle

  datatype Resolved = Resolved(lease: Lease, instance: Instance, pool: Pool, binding: Binding)

  datatype BindingError =
    | LeaseNotFound | LeaseLookup | LeaseUidMismatch | LeaseDeleting | LeaseNotBound
    | ExpiryMissing | ExpiryMalformed | LeaseExpired
    | BindingMissing | BindingMalformed(part: string) | BindingLeaseMismatch | ClusterNameMismatch
    | InstanceNotFound | InstanceLookup | InstanceUidMismatch | InstanceGenerationMismatch | InstanceDeleting
    | InstancePhaseMismatch | ReciprocalBindingMismatch | LeaseStillBound | LeaseRefMismatch | InstancePoolMismatch
    | InstanceOwnerMismatch | InstanceSpecDigestMismatch | InstanceProvenanceMissing | InstanceProvenanceMismatch
    | PoolNotFound | PoolLookup | PoolUidMismatch | PoolDeleting | BackendProvenanceMismatch

  const DEFAULT_LEASE_STATUS: LeaseStatus := LeaseStatus(Pending, None, None, None)
  const DEFAULT_INSTANCE_STATUS: InstanceStatus := InstanceStatus(Creating, None, None, None, None)

  function LeaseStatusOf(l: Lease): LeaseStatus { if l.status.Some? then l.status.value else DEFAULT_LEASE_STATUS }
  function InstanceStatusOf(i: Instance): InstanceStatus {
    if i.status.Some? then i.status.value else DEFAULT_INSTANCE_STATUS
  }

  // ---------------------------------------------------------------- the shape of a binding

  predicate HexDigit(c: char) { '0' <= c <= '9' || 'a' <= c <= 'f' || 'A' <= c <= 'F' }
  predicate Hex(s: string) { forall i :: 0 <= i < |s| ==> HexDigit(s[i]) }

  predicate Missing(uid: Option<string>) { uid.None? || uid.value == "" }

  predicate ManifestMatches(b: Binding, namespace: string) {
    if b.manifestDigest.Some? && b.manifest.Some? then
      var m := b.manifest.value;
      && m.valid && m.digest == b.manifestDigest && m.namespace == namespace
      && m.instance.name == b.instance.name && m.instance.uid == Some(b.instance.uid)
      && m.backendType == b.backend.backendType && m.configDigest == b.backend.configDigest
    else b.manifestDigest.None? && b.manifest.None? && !b.requiresReceipt
  }

  predicate TokenShape(t: Identity, namespace: string, lease: string) {
    && t.apiVersion == "v1" && t.kind == "Secret" && t.namespace == Some(namespace)
    && t.name == lease + "-connect-token" && !Blank(t.uid)
  }

  function ValidateBindingShape(b: Binding, namespace: string): Result<(), BindingError> {
    if b.bindingId == "" || Utf8Length(b.bindingId) > 128 then Err(BindingMalformed("binding_id"))
    else if b.lease.name == "" || Missing(b.lease.uid) || b.instance.name == "" || b.instance.uid == ""
            || b.instance.observedGeneration < 1 || b.pool.name == "" || Missing(b.pool.uid)
    then Err(BindingMalformed("identity"))
    else if !(|b.instanceSpecDigest| in {16, 64} && Hex(b.instanceSpecDigest))
            || !(|b.backend.configDigest| == 64 && Hex(b.backend.configDigest))
    then Err(BindingMalformed("digest"))
    else if b.backend.backendType == "capi" && b.backend.capi.None? then Err(BindingMalformed("capi_dispatch_missing"))
    else if b.backend.backendType != "capi" && b.backend.capi.Some?
    then Err(BindingMalformed("unexpected_capi_dispatch"))
    else if !ManifestMatches(b, namespace) then Err(BindingMalformed("creation_manifest"))
    else if b.requiresReceipt && !(b.connectToken.Some? && TokenShape(b.connectToken.value, namespace, b.lease.name))
    then Err(BindingMalformed("connect_token"))
    else Ok(())
  }

  /** Sixteen values a digit, in either case. */
  predicate HexOf(s: string, lengths: set<nat>) {
    |s| in lengths && forall i :: 0 <= i < |s| ==> s[i] in "0123456789abcdefABCDEF"
  }

  /** The bytes of a text: one a character, and one more from each of these code points on. */
  function ByteCount(s: string): nat {
    |s| + From(s, 0x80) + From(s, 0x800) + From(s, 0x10000)
  }

  function From(s: string, bound: int): nat {
    if s == "" then 0 else (if s[0] as int >= bound then 1 else 0) + From(s[1..], bound)
  }

  lemma {:induction false} Utf8LengthCounts(s: string)
    ensures Utf8Length(s) == ByteCount(s)
  {
    if s != "" { Utf8LengthCounts(s[1..]); }
  }

  /** A binding one may act on, field by field: the order of the checks is immaterial. */
  predicate WellShaped(b: Binding, namespace: string) {
    && 1 <= ByteCount(b.bindingId) <= 128
    && b.lease.name != "" && b.lease.uid.Some? && b.lease.uid.value != ""
    && b.instance.name != "" && b.instance.uid != "" && b.instance.observedGeneration >= 1
    && b.pool.name != "" && b.pool.uid.Some? && b.pool.uid.value != ""
    && HexOf(b.instanceSpecDigest, {16, 64}) && HexOf(b.backend.configDigest, {64})
    && (b.backend.capi.Some? <==> b.backend.backendType == "capi")
    && b.manifest.Some? == b.manifestDigest.Some?
    && (b.manifest.Some? ==>
          && b.manifest.value.valid && b.manifest.value.digest == b.manifestDigest
          && b.manifest.value.namespace == namespace
          && b.manifest.value.instance == Ref(b.instance.name, Some(b.instance.uid))
          && b.manifest.value.backendType == b.backend.backendType
          && b.manifest.value.configDigest == b.backend.configDigest)
    && (b.requiresReceipt ==>
          && b.manifest.Some? && b.connectToken.Some? && !Blank(b.connectToken.value.uid)
          && b.connectToken.value ==
             Identity("v1", "Secret", Some(namespace), b.lease.name + "-connect-token", b.connectToken.value.uid))
  }

  lemma HexIffDigits(s: string, lengths: set<nat>)
    ensures HexOf(s, lengths) <==> |s| in lengths && Hex(s)
  {
    forall c: char ensures HexDigit(c) <==> c in "0123456789abcdefABCDEF" { HexDigits(c); }
    hide HexDigit;
  }

  lemma HexDigits(c: char)
    ensures HexDigit(c) <==> c in "0123456789abcdefABCDEF"
  {
    var all := "0123456789abcdefABCDEF";
    if HexDigit(c) {
      var k := c as int - (if c <= '9' then '0' as int else if c <= 'F' then 'A' as int - 16 else 'a' as int - 10);
      assert all[k] == c;
    }
  }

  lemma ShapeMeaning(b: Binding, namespace: string)
    ensures ValidateBindingShape(b, namespace).Ok? <==> WellShaped(b, namespace)
  {
    Utf8LengthCounts(b.bindingId);
    HexIffDigits(b.instanceSpecDigest, {16, 64});
    HexIffDigits(b.backend.configDigest, {64});
    hide Hex, HexOf, Utf8Length, ByteCount, Blank;
  }

  // ---------------------------------------------------------------- granting access

  function CheckBinding(s: Snapshot, lease: Lease, b: Binding, name: string, uid: string, mode: Mode)
    : Result<(Lease, Binding), BindingError>
  {
    var shape := ValidateBindingShape(b, s.namespace);
    if shape.Err? then Err(shape.error)
    else if b.lease.name != name || b.lease.uid != Some(uid) then Err(BindingLeaseMismatch)
    else if lease.poolRef != b.pool.name then Err(InstancePoolMismatch)
    else if mode == Access && LeaseStatusOf(lease).clusterName != Some(b.instance.name) then Err(ClusterNameMismatch)
    else Ok((lease, b))
  }

  /** The lease half of resolution, up to the binding it carries. */
  function CheckLease(s: Snapshot, name: string, uid: string, mode: Mode): Result<(Lease, Binding), BindingError> {
    if (Leases, name) in s.unreadable then Err(LeaseLookup)
    else if name !in s.leases then Err(LeaseNotFound)
    else
      var lease := s.leases[name];
      var status := LeaseStatusOf(lease);
      if lease.uid != Some(uid) || lease.name != name then Err(LeaseUidMismatch)
      else if mode == Access && lease.deleting then Err(LeaseDeleting)
      else if mode == Access && status.phase != Bound then Err(LeaseNotBound)
      else if mode == Access && status.expiresAt.None? then Err(ExpiryMissing)
      else if mode == Access && status.expiresAt.value.Garbled? then Err(ExpiryMalformed)
      else if mode == Access && s.now >= status.expiresAt.value.t then Err(LeaseExpired)
      else if status.binding.None? then Err(BindingMissing)
      else CheckBinding(s, lease, status.binding.value, name, uid, mode)
  }

  predicate OwnedByPool(i: Instance, b: Binding) {
    exists k :: 0 <= k < |i.owners| && i.owners[k].apiVersion == "kobe.kunobi.ninja/v1alpha1"
      && i.owners[k].kind == "ClusterPool" && i.owners[k].name == b.pool.name && Some(i.owners[k].uid) == b.pool.uid
  }

  lemma OwnerMeaning(i: Instance, b: Binding)
    requires b.pool.uid.Some?
    ensures OwnedByPool(i, b) <==>
            Owner("kobe.kunobi.ninja/v1alpha1", "ClusterPool", b.pool.name, b.pool.uid.value) in i.owners
  {
    var owner := Owner("kobe.kunobi.ninja/v1alpha1", "ClusterPool", b.pool.name, b.pool.uid.value);
    if owner in i.owners {
      var k :| 0 <= k < |i.owners| && i.owners[k] == owner;
      assert i.owners[k].uid == owner.uid;
    }
  }

  /** What the instance says back of its lease, its pool and how it was made. */
  function CheckReciprocity(i: Instance, b: Binding): Result<Instance, BindingError> {
    var status := InstanceStatusOf(i);
    if status.binding != Some(b) then Err(ReciprocalBindingMismatch)
    else if status.leaseRef != Some(Ref(b.lease.name, b.lease.uid)) then Err(LeaseRefMismatch)
    else if i.poolRef != Some(Ref(b.pool.name, b.pool.uid)) then Err(InstancePoolMismatch)
    else if !OwnedByPool(i, b) then Err(InstanceOwnerMismatch)
    else if status.specHash != Some(b.instanceSpecDigest) then Err(InstanceSpecDigestMismatch)
    else if status.createdWith.None? then Err(InstanceProvenanceMissing)
    else if status.createdWith.value != CreatedWith(b.pool.uid, Some(b.backend), Some(b.backend.backendType))
    then Err(InstanceProvenanceMismatch)
    else Ok(i)
  }

  function CheckInstance(s: Snapshot, b: Binding, mode: Mode): Result<Instance, BindingError> {
    if (Instances, b.instance.name) in s.unreadable then Err(InstanceLookup)
    else if b.instance.name !in s.instances then Err(InstanceNotFound)
    else
      var i := s.instances[b.instance.name];
      if i.uid != Some(b.instance.uid) then Err(InstanceUidMismatch)
      else if i.generation != Some(b.instance.observedGeneration) then Err(InstanceGenerationMismatch)
      else if i.deleting then Err(InstanceDeleting)
      else if mode == Access && InstanceStatusOf(i).phase != Leased then Err(InstancePhaseMismatch)
      else CheckReciprocity(i, b)
  }

  function CheckPool(s: Snapshot, b: Binding): Result<Pool, BindingError> {
    if (Pools, b.pool.name) in s.unreadable then Err(PoolLookup)
    else if b.pool.name !in s.pools then Err(PoolNotFound)
    else
      var p := s.pools[b.pool.name];
      if p.uid != b.pool.uid then Err(PoolUidMismatch)
      else if p.deleting then Err(PoolDeleting)
      else if p.backend != Some(b.backend) then Err(BackendProvenanceMismatch)
      else Ok(p)
  }

  function Resolve(s: Snapshot, name: string, uid: string, mode: Mode): Result<Resolved, BindingError> {
    var lease := CheckLease(s, name, uid, mode);
    if lease.Err? then Err(lease.error)
    else
      var b := lease.value.1;
      var instance := CheckInstance(s, b, mode);
      if instance.Err? then Err(instance.error)
      else
        var pool := CheckPool(s, b);
        if pool.Err? then Err(pool.error)
        else Ok(Resolved(lease.value.0, instance.value, pool.value, b))
  }

  /** What a grant rests on, with no order between the checks: the exact reciprocal tuple, every
      object identified by UID, and in Access mode a live tenant. */
  predicate GrantRestsOn(s: Snapshot, name: string, uid: string, mode: Mode, r: Resolved) {
    var b := r.binding;
    && WellShaped(b, s.namespace)
    && (Leases, name) !in s.unreadable && name in s.leases && r.lease == s.leases[name]
    && r.lease.name == name && r.lease.uid == Some(uid) && b.lease == Ref(name, Some(uid))
    && LeaseStatusOf(r.lease).binding == Some(b) && r.lease.poolRef == b.pool.name
    && (Instances, b.instance.name) !in s.unreadable && b.instance.name in s.instances
    && r.instance == s.instances[b.instance.name]
    && r.instance.uid == Some(b.instance.uid) && r.instance.generation == Some(b.instance.observedGeneration)
    && !r.instance.deleting && r.instance.poolRef == Some(b.pool)
    && Owner("kobe.kunobi.ninja/v1alpha1", "ClusterPool", b.pool.name, b.pool.uid.value) in r.instance.owners
    && InstanceStatusOf(r.instance).binding == Some(b) && InstanceStatusOf(r.instance).leaseRef == Some(b.lease)
    && InstanceStatusOf(r.instance).specHash == Some(b.instanceSpecDigest)
    && InstanceStatusOf(r.instance).createdWith ==
       Some(CreatedWith(b.pool.uid, Some(b.backend), Some(b.backend.backendType)))
    && (Pools, b.pool.name) !in s.unreadable && b.pool.name in s.pools && r.pool == s.pools[b.pool.name]
    && r.pool.uid == b.pool.uid && !r.pool.deleting && r.pool.backend == Some(b.backend)
    && (mode == Access ==>
          && !r.lease.deleting && LeaseStatusOf(r.lease).phase == Bound
          && LeaseStatusOf(r.lease).clusterName == Some(b.instance.name)
          && InstanceStatusOf(r.instance).phase == Leased
          && LeaseStatusOf(r.lease).expiresAt.Some? && LeaseStatusOf(r.lease).expiresAt.value.At?
          && s.now < LeaseStatusOf(r.lease).expiresAt.value.t)
  }

  /** Resolution fails closed: it grants exactly the tuples that rest on all of the above. */
  lemma ResolveFailsClosed(s: Snapshot, name: string, uid: string, mode: Mode, r: Resolved)
    ensures Resolve(s, name, uid, mode) == Ok(r) <==> GrantRestsOn(s, name, uid, mode, r)
  {
    ShapeMeaning(r.binding, s.namespace);
    if WellShaped(r.binding, s.namespace) { OwnerMeaning(r.instance, r.binding); }
    hide ValidateBindingShape, OwnedByPool, WellShaped;
  }

  // ---------------------------------------------------------------- what a refusal says

  /** The part a malformed binding is refused for is one that is malformed. */
  predicate ShapeFault(b: Binding, namespace: string, part: string) {
    match part
    case "binding_id" => !(1 <= ByteCount(b.bindingId) <= 128)
    case "identity" =>
      || b.lease.name == "" || b.lease.uid == None || b.lease.uid == Some("")
      || b.instance.name == "" || b.instance.uid == "" || b.instance.observedGeneration <= 0
      || b.pool.name == "" || b.pool.uid == None || b.pool.uid == Some("")
    case "digest" => !HexOf(b.instanceSpecDigest, {16, 64}) || !HexOf(b.backend.configDigest, {64})
    case "capi_dispatch_missing" => b.backend.backendType == "capi" && b.backend.capi == None
    case "unexpected_capi_dispatch" => b.backend.backendType != "capi" && b.backend.capi != None
    case "creation_manifest" => !ManifestMatches(b, namespace)
    case "connect_token" =>
      b.requiresReceipt && !(b.connectToken.Some? && TokenShape(b.connectToken.value, namespace, b.lease.name))
    case _ => false
  }

  lemma ShapeErrors(b: Binding, namespace: string)
    requires ValidateBindingShape(b, namespace).Err?
    ensures var e := ValidateBindingShape(b, namespace).error; e.BindingMalformed? && ShapeFault(b, namespace, e.part)
  {
    Utf8LengthCounts(b.bindingId);
    HexIffDigits(b.instanceSpecDigest, {16, 64});
    HexIffDigits(b.backend.configDigest, {64});
    hide Hex, HexOf, Utf8Length, ByteCount, ManifestMatches, TokenShape;
  }

  predicate LeaseFault(s: Snapshot, name: string, uid: string, mode: Mode, e: BindingError) {
    || (e == LeaseLookup && (Leases, name) in s.unreadable)
    || (e == LeaseNotFound && name !in s.leases)
    || (name in s.leases && StoredLeaseFault(s, s.leases[name], name, uid, mode, e))
  }

  predicate StoredLeaseFault(s: Snapshot, l: Lease, name: string, uid: string, mode: Mode, e: BindingError) {
    var status := LeaseStatusOf(l);
    match e
    case LeaseUidMismatch => l.uid != Some(uid) || l.name != name
    case LeaseDeleting => mode == Access && l.deleting
    case LeaseNotBound => mode == Access && status.phase != Bound
    case ExpiryMissing => mode == Access && status.expiresAt == None
    case ExpiryMalformed => mode == Access && status.expiresAt.Some? && status.expiresAt.value.Garbled?
    case LeaseExpired =>
      mode == Access && status.expiresAt.Some? && status.expiresAt.value.At? && status.expiresAt.value.t <= s.now
    case BindingMissing => status.binding == None
    case BindingMalformed(part) => status.binding.Some? && ShapeFault(status.binding.value, s.namespace, part)
    case BindingLeaseMismatch => status.binding.Some? && status.binding.value.lease != Ref(name, Some(uid))
    case InstancePoolMismatch => status.binding.Some? && l.poolRef != status.binding.value.pool.name
    case ClusterNameMismatch =>
      mode == Access && status.binding.Some? && status.clusterName != Some(status.binding.value.instance.name)
    case _ => false
  }

  predicate InstanceFault(s: Snapshot, b: Binding, mode: Mode, e: BindingError) {
    || (e == InstanceLookup && (Instances, b.instance.name) in s.unreadable)
    || (e == InstanceNotFound && b.instance.name !in s.instances)
    || (b.instance.name in s.instances && StoredInstanceFault(s.instances[b.instance.name], b, mode, e))
  }

  predicate StoredInstanceFault(i: Instance, b: Binding, mode: Mode, e: BindingError) {
    var status := InstanceStatusOf(i);
    match e
    case InstanceUidMismatch => i.uid != Some(b.instance.uid)
    case InstanceGenerationMismatch => i.generation != Some(b.instance.observedGeneration)
    case InstanceDeleting => i.deleting
    case InstancePhaseMismatch => mode == Access && status.phase != Leased
    case ReciprocalBindingMismatch => status.binding != Some(b)
    case LeaseRefMismatch => status.leaseRef != Some(b.lease)
    case InstancePoolMismatch => i.poolRef != Some(b.pool)
    case InstanceOwnerMismatch =>
      b.pool.uid.Some? ==>
        Owner("kobe.kunobi.ninja/v1alpha1", "ClusterPool", b.pool.name, b.pool.uid.value) !in i.owners
    case InstanceSpecDigestMismatch => status.specHash != Some(b.instanceSpecDigest)
    case InstanceProvenanceMissing => status.createdWith == None
    case InstanceProvenanceMismatch =>
      status.createdWith.Some? &&
      status.createdWith.value != CreatedWith(b.pool.uid, Some(b.backend), Some(b.backend.backendType))
    case _ => false
  }

  predicate PoolFault(s: Snapshot, b: Binding, e: BindingError) {
    match e
    case PoolLookup => (Pools, b.pool.name) in s.unreadable
    case PoolNotFound => b.pool.name !in s.pools
    case PoolUidMismatch => b.pool.name in s.pools && s.pools[b.pool.name].uid != b.pool.uid
    case PoolDeleting => b.pool.name in s.pools && s.pools[b.pool.name].deleting
    case BackendProvenanceMismatch => b.pool.name in s.pools && s.pools[b.pool.name].backend != Some(b.backend)
    case _ => false
  }

  lemma BindingErrors(s: Snapshot, l: Lease, b: Binding, name: string, uid: string, mode: Mode)
    requires LeaseStatusOf(l).binding == Some(b) && CheckBinding(s, l, b, name, uid, mode).Err?
    ensures StoredLeaseFault(s, l, name, uid, mode, CheckBinding(s, l, b, name, uid, mode).error)
  {
    if ValidateBindingShape(b, s.namespace).Err? { ShapeErrors(b, s.namespace); }
    hide ValidateBindingShape, ShapeFault, LeaseStatusOf;
  }

  lemma LeaseErrors(s: Snapshot, name: string, uid: string, mode: Mode)
    requires CheckLease(s, name, uid, mode).Err?
    ensures LeaseFault(s, name, uid, mode, CheckLease(s, name, uid, mode).error)
  {
    if name in s.leases && LeaseStatusOf(s.leases[name]).binding.Some? {
      var b := LeaseStatusOf(s.leases[name]).binding.value;
      if CheckBinding(s, s.leases[name], b, name, uid, mode).Err? {
        BindingErrors(s, s.leases[name], b, name, uid, mode);
      }
    }
    hide CheckBinding, ShapeFault;
  }

  lemma ReciprocityErrors(i: Instance, b: Binding, mode: Mode)
    requires CheckReciprocity(i, b).Err?
    ensures StoredInstanceFault(i, b, mode, CheckReciprocity(i, b).error)
  {
    if b.pool.uid.Some? { OwnerMeaning(i, b); }
    hide OwnedByPool, InstanceStatusOf;
  }

  lemma InstanceErrors(s: Snapshot, b: Binding, mode: Mode)
    requires CheckInstance(s, b, mode).Err?
    ensures InstanceFault(s, b, mode, CheckInstance(s, b, mode).error)
  {
    hide CheckReciprocity;
    if b.instance.name in s.instances && CheckReciprocity(s.instances[b.instance.name], b).Err? {
      ReciprocityErrors(s.instances[b.instance.name], b, mode);
    }
  }

  lemma PoolErrors(s: Snapshot, b: Binding)
    requires CheckPool(s, b).Err?
    ensures PoolFault(s, b, CheckPool(s, b).error)
  {}

  /** A refusal is true: the reason it gives is a fact of the snapshot. */
  lemma RefusalsAreTrue(s: Snapshot, name: string, uid: string, mode: Mode)
    requires Resolve(s, name, uid, mode).Err?
    ensures var e := Resolve(s, name, uid, mode).error;
            || LeaseFault(s, name, uid, mode, e)
            || (&& name in s.leases && LeaseStatusOf(s.leases[name]).binding.Some?
                && var b := LeaseStatusOf(s.leases[name]).binding.value;
                   InstanceFault(s, b, mode, e) || PoolFault(s, b, e))
  {
    hide CheckInstance, CheckPool, LeaseFault, InstanceFault, PoolFault, ValidateBindingShape;
    var lease := CheckLease(s, name, uid, mode);
    if lease.Err? {
      LeaseErrors(s, name, uid, mode);
    } else if CheckInstance(s, lease.value.1, mode).Err? {
      InstanceErrors(s, lease.value.1, mode);
    } else {
      PoolErrors(s, lease.value.1);
    }
  }

  /** Objects without a status grant nothing: the lease counts as not bound and carries no binding, the
      instance refers back to none. */
  lemma BareObjectsRefused(s: Snapshot, name: string, uid: string, mode: Mode)
    requires name in s.leases && (Leases, name) !in s.unreadable
    ensures var l := s.leases[name];
            && (l.status == None && l.uid == Some(uid) && l.name == name && !l.deleting ==>
                  Resolve(s, name, uid, mode) == Err(if mode == Access then LeaseNotBound else BindingMissing))
    ensures forall b: Binding ::
              (b.instance.name in s.instances && s.instances[b.instance.name].status == None) ==>
                CheckInstance(s, b, mode).Err?
  {
    hide ValidateBindingShape, OwnedByPool;
  }

  // ---------------------------------------------------------------- permitting teardown

  function VerifyTeardown(s: Snapshot, i: Instance): Result<(), BindingError> {
    if InstanceStatusOf(i).binding.None? then Ok(())
    else
      var b := InstanceStatusOf(i).binding.value;
      if i.uid != Some(b.instance.uid) || i.name != b.instance.name then Err(InstanceUidMismatch)
      else if (Leases, b.lease.name) in s.unreadable then Err(LeaseLookup)
      else if b.lease.name !in s.leases then Ok(())
      else
        var lease := s.leases[b.lease.name];
        var status := LeaseStatusOf(lease);
        if lease.uid != b.lease.uid || lease.deleting || status.phase != Bound then Ok(())
        else if !(status.expiresAt.Some? && status.expiresAt.value.At? && s.now < status.expiresAt.value.t) then Ok(())
        else if status.binding == Some(b) then Err(LeaseStillBound)
        else Ok(())
  }

  /** The API server files every object under its own name. */
  predicate Filed(s: Snapshot) {
    && (forall n :: n in s.leases ==> s.leases[n].name == n)
    && (forall n :: n in s.instances ==> s.instances[n].name == n)
    && (forall n :: n in s.pools ==> s.pools[n].name == n)
  }

  // ---------------------------------------------------------------- one snapshot

  /** An instance a tenant can reach is an instance teardown must refuse. */
  lemma AccessExcludesTeardown(s: Snapshot, name: string, uid: string)
    requires Filed(s) && Resolve(s, name, uid, Access).Ok?
    ensures VerifyTeardown(s, Resolve(s, name, uid, Access).value.instance) == Err(LeaseStillBound)
  {
    hide ValidateBindingShape, OwnedByPool;
  }

  /** An instance whose teardown is permitted is reachable by no lease name and UID. */
  lemma TeardownExcludesAccess(s: Snapshot, i: Instance, name: string, uid: string)
    requires Filed(s) && VerifyTeardown(s, i).Ok?
    ensures Resolve(s, name, uid, Access).Ok? ==> Resolve(s, name, uid, Access).value.instance != i
  {
    hide VerifyTeardown, Resolve;
    if Resolve(s, name, uid, Access).Ok? {
      AccessExcludesTeardown(s, name, uid);
    }
  }

  /** Two resolutions that reach one instance are for one lease. */
  lemma ExclusiveTenancy(s: Snapshot, name: string, uid: string, mode: Mode, name': string, uid': string, mode': Mode)
    requires Resolve(s, name, uid, mode).Ok? && Resolve(s, name', uid', mode').Ok?
    requires Resolve(s, name, uid, mode).value.instance == Resolve(s, name', uid', mode').value.instance
    ensures name == name' && uid == uid'
    ensures Resolve(s, name, uid, mode) == Resolve(s, name', uid', mode')
  {
    hide ValidateBindingShape, OwnedByPool;
  }

  /** Access is the stricter mode: what it grants, lifecycle work sees unchanged. */
  lemma AccessImpliesLifecycle(s: Snapshot, name: string, uid: string)
    requires Resolve(s, name, uid, Access).Ok?
    ensures Resolve(s, name, uid, Lifecycle) == Resolve(s, name, uid, Access)
  {
    hide ValidateBindingShape, OwnedByPool;
  }

  /** Exactly what teardown refuses: a binding that describes another object, a failed lookup, or a
      live lease that still carries the very same binding. */
  lemma TeardownRefusals(s: Snapshot, i: Instance)
    ensures var b := InstanceStatusOf(i).binding;
            VerifyTeardown(s, i).Err? <==>
              b.Some? && (|| i.uid != Some(b.value.instance.uid) || i.name != b.value.instance.name
                          || (Leases, b.value.lease.name) in s.unreadable
                          || HeldBy(s, b.value))
    ensures VerifyTeardown(s, i).Err? ==>
              var b := InstanceStatusOf(i).binding.value;
              VerifyTeardown(s, i).error ==
              if i.uid != Some(b.instance.uid) || i.name != b.instance.name then InstanceUidMismatch
              else if (Leases, b.lease.name) in s.unreadable then LeaseLookup
              else LeaseStillBound
  {}

  predicate HeldBy(s: Snapshot, b: Binding) {
    && b.lease.name in s.leases
    && (var l := s.leases[b.lease.name];
        && l.uid == b.lease.uid && !l.deleting && LeaseStatusOf(l).phase == Bound && LeaseStatusOf(l).binding == Some(b)
        && LeaseStatusOf(l).expiresAt.Some? && LeaseStatusOf(l).expiresAt.value.At?
        && s.now < LeaseStatusOf(l).expiresAt.value.t)
  }

  // ---------------------------------------------------------------- time and deletion

  /** With objects fixed, access only ever ends as time passes. */
  lemma AccessAntitoneInTime(s: Snapshot, name: string, uid: string, earlier: int)
    requires earlier <= s.now && Resolve(s, name, uid, Access).Ok?
    ensures Resolve(s.(now := earlier), name, uid, Access) == Resolve(s, name, uid, Access)
  {
    hide ValidateBindingShape, OwnedByPool;
  }

  /** A still-bound refusal clears at the lease's expiry, not before, and stays clear. */
  lemma TeardownClearsAtExpiry(s: Snapshot, i: Instance) returns (expiry: int)
    requires VerifyTeardown(s, i) == Err(LeaseStillBound)
    ensures s.now < expiry
    ensures forall t :: VerifyTeardown(s.(now := t), i) == if t < expiry then Err(LeaseStillBound) else Ok(())
  {
    expiry := LeaseStatusOf(s.leases[InstanceStatusOf(i).binding.value.lease.name]).expiresAt.value.t;
  }

  lemma TeardownMonotoneInTime(s: Snapshot, i: Instance, later: int)
    requires s.now <= later && VerifyTeardown(s, i).Ok?
    ensures VerifyTeardown(s.(now := later), i).Ok?
  {
    TeardownRefusals(s, i);
    TeardownRefusals(s.(now := later), i);
  }

  /** What the API server does to an instance it starts deleting. */
  function Doomed(i: Instance): Instance {
    i.(deleting := true, generation := match i.generation case Some(g) => Some(g + 1) case None => None)
  }

  function WithDoomed(s: Snapshot, n: string): Snapshot
    requires n in s.instances
  {
    s.(instances := s.instances[n := Doomed(s.instances[n])])
  }

  /** Starting deletion closes both resolve modes on that instance and leaves teardown's verdict alone. */
  lemma DeletionClosesAccessOnly(s: Snapshot, n: string, name: string, uid: string, mode: Mode)
    requires Filed(s) && n in s.instances
    ensures Resolve(WithDoomed(s, n), name, uid, mode).Ok? ==>
              Resolve(WithDoomed(s, n), name, uid, mode).value.instance.name != n
    ensures Resolve(s, name, uid, mode).Ok? && Resolve(s, name, uid, mode).value.instance.name == n ==>
              Resolve(WithDoomed(s, n), name, uid, mode) == Err(InstanceGenerationMismatch)
    ensures VerifyTeardown(WithDoomed(s, n), Doomed(s.instances[n])) == VerifyTeardown(s, s.instances[n])
  {
    hide ValidateBindingShape, OwnedByPool, CheckLease, CheckPool;
    var s' := WithDoomed(s, n);
    SameLeaseAndClock(s, s', name, uid, mode);
  }

  lemma SameLeaseAndClock(s: Snapshot, s': Snapshot, name: string, uid: string, mode: Mode)
    requires s' == s.(instances := s'.instances)
    ensures CheckLease(s', name, uid, mode) == CheckLease(s, name, uid, mode)
  {
    hide ValidateBindingShape;
  }

  // ---------------------------------------------------------------- runs with name reuse

  /** Snapshots over time, with the UIDs handed out so far per kind. */
  datatype World = World(snapshot: Snapshot, issued: map<Kind, set<string>>)

  function LiveUids(s: Snapshot, k: Kind): set<string> {
    match k
    case Leases => set n | n in s.leases && s.leases[n].uid.Some? :: s.leases[n].uid.value
    case Instances => set n | n in s.instances && s.instances[n].uid.Some? :: s.instances[n].uid.value
    case Pools => set n | n in s.pools && s.pools[n].uid.Some? :: s.pools[n].uid.value
  }

  predicate Accounted(w: World) {
    forall k: Kind :: k in w.issued && LiveUids(w.snapshot, k) <= w.issued[k]
  }

  /** Any number of creations, updates and deletions: a UID that is live afterwards was live before,
      or had never been handed out. */
  predicate Evolves(w: World, w': World) {
    Accounted(w) && Accounted(w') &&
    forall k: Kind ::
      && w.issued[k] <= w'.issued[k]
      && forall u :: u in LiveUids(w'.snapshot, k) ==> u in LiveUids(w.snapshot, k) || u !in w.issued[k]
  }

  predicate IsRun(ws: seq<World>) {
    ws != [] && Accounted(ws[0]) && forall i :: 0 <= i < |ws| - 1 ==> Evolves(ws[i], ws[i + 1])
  }

  /** A UID that is gone never comes back. */
  lemma {:induction false} GoneForGood(ws: seq<World>, i: nat, j: nat, k: Kind, u: string)
    requires IsRun(ws) && i <= j < |ws|
    requires k in ws[i].issued && u in ws[i].issued[k] && u !in LiveUids(ws[i].snapshot, k)
    ensures k in ws[j].issued && u in ws[j].issued[k] && u !in LiveUids(ws[j].snapshot, k)
    decreases j
  {
    if i < j {
      GoneForGood(ws, i, j - 1, k, u);
      assert Evolves(ws[j - 1], ws[j]);
    }
  }

  function BoundUid(b: Binding, k: Kind): Option<string> {
    match k case Leases => b.lease.uid case Instances => Some(b.instance.uid) case Pools => b.pool.uid
  }

  /** Whatever a resolution went through is live under the UID its binding names. */
  lemma ResolvedIsLive(s: Snapshot, name: string, uid: string, mode: Mode, k: Kind)
    requires Resolve(s, name, uid, mode).Ok?
    ensures var u := BoundUid(Resolve(s, name, uid, mode).value.binding, k);
            u.Some? && u.value in LiveUids(s, k)
  {
    hide OwnedByPool, ManifestMatches, TokenShape, Hex;
    var r := Resolve(s, name, uid, mode).value;
    match k
    case Leases => assert name in s.leases && s.leases[name].uid == Some(uid);
    case Instances => assert r.binding.instance.name in s.instances;
    case Pools => assert r.binding.pool.name in s.pools;
  }

  /** The UID fence: once the lease, instance or pool behind a resolved binding is gone, no name, UID
      or mode resolves that binding again, however often same-named objects are recreated. */
  lemma UidFence(ws: seq<World>, i: nat, j: nat, k: nat, kind: Kind,
                 name: string, uid: string, mode: Mode, name': string, uid': string, mode': Mode)
    requires IsRun(ws) && i <= j <= k < |ws|
    requires Resolve(ws[i].snapshot, name, uid, mode).Ok?
    requires var u := BoundUid(Resolve(ws[i].snapshot, name, uid, mode).value.binding, kind);
             u.Some? ==> u.value !in LiveUids(ws[j].snapshot, kind)
    ensures Resolve(ws[k].snapshot, name', uid', mode').Ok? ==>
              Resolve(ws[k].snapshot, name', uid', mode').value.binding !=
              Resolve(ws[i].snapshot, name, uid, mode).value.binding
  {
    hide Resolve, LiveUids;
    var b := Resolve(ws[i].snapshot, name, uid, mode).value.binding;
    ResolvedIsLive(ws[i].snapshot, name, uid, mode, kind);
    var u := BoundUid(b, kind).value;
    StaysIssued(ws, i, j, kind, u);
    GoneForGood(ws, j, k, kind, u);
    if Resolve(ws[k].snapshot, name', uid', mode').Ok? {
      ResolvedIsLive(ws[k].snapshot, name', uid', mode', kind);
    }
  }

  lemma {:induction false} StaysIssued(ws: seq<World>, i: nat, j: nat, k: Kind, u: string)
    requires IsRun(ws) && i <= j < |ws| && u in LiveUids(ws[i].snapshot, k)
    ensures k in ws[j].issued && u in ws[j].issued[k]
    decreases j
  {
    hide LiveUids;
    if i < j {
      StaysIssued(ws, i, j - 1, k, u);
      assert Evolves(ws[j - 1], ws[j]);
    } else if i > 0 {
      assert Evolves(ws[i - 1], ws[i]);
    }
  }

  /** The dual: once the lease behind an instance's binding is gone, teardown of that instance is
      permitted in every later readable state, whatever lease later takes the name. */
  lemma TeardownStaysOpen(ws: seq<World>, j: nat, k: nat, i: Instance)
    requires IsRun(ws) && j <= k < |ws|
    requires InstanceStatusOf(i).binding.Some?
    requires var b := InstanceStatusOf(i).binding.value;
             && i.uid == Some(b.instance.uid) && i.name == b.instance.name && b.lease.uid.Some?
             && Leases in ws[j].issued && b.lease.uid.value in ws[j].issued[Leases]
             && b.lease.uid.value !in LiveUids(ws[j].snapshot, Leases)
             && (Leases, b.lease.name) !in ws[k].snapshot.unreadable
    ensures VerifyTeardown(ws[k].snapshot, i).Ok?
  {
    var b := InstanceStatusOf(i).binding.value;
    GoneForGood(ws, j, k, Leases, b.lease.uid.value);
    TeardownRefusals(ws[k].snapshot, i);
  }
}
