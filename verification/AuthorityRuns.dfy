/**
 Whole runs of admitted requests against the proof-bearing resources. Requests come from arbitrary
 users. The policy is any one that enforces an expression set, whatever else it holds; that the
 policies startup accepts do so, and for which names, is settled in `PolicyValidation` and `RawNames`.
 */
module AuthorityRuns {
  import opened Common
  import opened Cel
  import opened AuthorityExpressions
  import opened PolicyValidation
  import opened ExpressionText
  import opened ExpressionSource
  import opened AuthorityTexts

  // ---------------------------------------------------------------- the store and its steps

  datatype Key = Key(resource: string, namespace: string, name: string)

  /** Live objects, and every UID handed out so far. */
  datatype State = State(objects: map<Key, Value>, issued: set<Slot>)

  function KeyOf(r: Request): Key { Key(r.resource, r.namespace, r.name) }

  predicate Deleting(o: Value) { MetadataField(o, "deletionTimestamp").Present? }

  /** A deleting object with no finalizer left is gone. */
  predicate Dead(o: Value) { Deleting(o) && Finalizers(o) == [] }

  /** The policed attributes of an object. */
  datatype Trait = StatusTrait(f: string) | AbsenceTrait | ReleaseTrait

  function Read(o: Value, t: Trait): Slot {
    match t
    case StatusTrait(f) => StatusField(o, f)
    case AbsenceTrait => Absence(o)
    case ReleaseTrait => ReleaseAnnotation(o)
  }

  /** What an object that never recorded the trait reads as. */
  function Unset(t: Trait): Slot { if t.AbsenceTrait? then Present(List([])) else Absent }

  predicate Stamped(o: Value, marked: Value) {
    && marked.Obj? && Deleting(marked) && Uid(marked) == Uid(o)
    && (forall v :: v in Finalizers(o) ==> v in Finalizers(marked))
    && Child(Present(marked), "status") == Child(Present(o), "status")
    && MetadataField(marked, "annotations") == MetadataField(o, "annotations")
  }

  predicate Created(s: State, r: Request, s': State) {
    && KeyOf(r) !in s.objects && r.subResource == "" && r.oldObject == Null
    && r.newObject.Obj? && !Deleting(r.newObject)
    && Uid(r.newObject).Present? && Uid(r.newObject) !in s.issued
    && s' == State(s.objects[KeyOf(r) := r.newObject], s.issued + {Uid(r.newObject)})
  }

  predicate Updated(s: State, r: Request, s': State) {
    && KeyOf(r) in s.objects && r.oldObject == s.objects[KeyOf(r)] && r.oldObject.Obj? && r.newObject.Obj?
    && Uid(r.newObject) == Uid(r.oldObject)
    && Deleting(r.newObject) == Deleting(r.oldObject)
    && (r.subResource == "status" ==>
          Child(Present(r.newObject), "metadata") == Child(Present(r.oldObject), "metadata"))
    && s' == State(if Dead(r.newObject) then s.objects - {KeyOf(r)} else s.objects[KeyOf(r) := r.newObject], s.issued)
  }

  /** Deleting an object that still has finalizers only stamps it. */
  predicate Deleted(s: State, r: Request, s': State) {
    && KeyOf(r) in s.objects && r.oldObject == s.objects[KeyOf(r)] && r.oldObject.Obj? && r.subResource == ""
    && s'.issued == s.issued
    && if Finalizers(r.oldObject) == [] then s'.objects == s.objects - {KeyOf(r)}
       else
         && KeyOf(r) in s'.objects && Stamped(r.oldObject, s'.objects[KeyOf(r)])
         && s'.objects == s.objects[KeyOf(r) := s'.objects[KeyOf(r)]]
  }

  predicate Next(s: State, r: Request, s': State) {
    if r.operation == CREATE then Created(s, r, s')
    else if r.operation == UPDATE then Updated(s, r, s')
    else Deleted(s, r, s')
  }

  predicate NoDead(s: State) { forall k :: k in s.objects ==> !Dead(s.objects[k]) }

  predicate NoneOf(s: State, resource: string) { forall k :: k in s.objects ==> k.resource != resource }

  datatype Run = Run(states: seq<State>, requests: seq<Request>, exempt: seq<bool>)

  predicate IsRun(parse: Compiler, p: Policy, b: Binding, run: Run) {
    && |run.states| == |run.requests| + 1 == |run.exempt| + 1
    && NoDead(run.states[0])
    && forall i :: 0 <= i < |run.requests| ==>
         && ProofRequest(run.requests[i])
         && Admits(parse, p, b, run.requests[i], run.exempt[i])
         && Next(run.states[i], run.requests[i], run.states[i + 1])
  }

  // ---------------------------------------------------------------- what one admitted request may do

  /** The status fields that are the authority's alone, by name. */
  predicate ProofField(resource: string, f: string) {
    match resource
    case "clusterleases" =>
      || f == "teardownReceipt" || f == "teardownEvidence" || f == "teardownAttemptId"
      || f == "unboundReleaseVerifiedAt" || f == "teardownAcknowledgement"
    case "clusterinstances" => f == "creationManifest" || f == "teardownIdentities"
    case _ => false
  }

  /** The status fields that are never the authority's, by name. */
  predicate LifecycleField(resource: string, f: string) {
    match resource
    case "clusterleases" => f == "binding" || f == "clusterName" || f == "phase" || f == "connectTokenCreation"
    case "clusterinstances" => f == "binding" || f == "leaseRef" || f == "phase"
    case _ => false
  }

  lemma KindsApart()
    ensures LEASES != INSTANCES
  {
    assert LEASES[7] == 'l' && INSTANCES[7] == 'i';
  }

  /** The operator's lists hold exactly these names. */
  lemma ListsByName(resource: string, f: string)
    ensures ProofField(resource, f) <==>
            (resource == LEASES && f in LEASE_PROOF_FIELDS) || (resource == INSTANCES && f in INSTANCE_PROOF_FIELDS)
    ensures LifecycleField(resource, f) <==>
            || (resource == LEASES && f in LEASE_LIFECYCLE_FIELDS)
            || (resource == INSTANCES && f in INSTANCE_LIFECYCLE_FIELDS)
  {
    KindsApart();
  }

  predicate ProofTrait(resource: string, t: Trait) {
    match t
    case StatusTrait(f) => ProofField(resource, f)
    case AbsenceTrait => resource == LEASES
    case ReleaseTrait => false
  }

  predicate LifecycleTrait(resource: string, t: Trait) { t.StatusTrait? && LifecycleField(resource, t.f) }

  predicate TraitKept(r: Request, t: Trait) {
    Read(r.newObject, t) == if r.oldObject == Null then Unset(t) else Read(r.oldObject, t)
  }

  /** What the shared expressions grant and refuse, with CEL out of the picture. */
  ghost predicate Fenced(user: string, r: Request) {
    && (r.resource == EVIDENCE ==> r.user == user)
    && (r.user == user && r.resource in {LEASES, INSTANCES} ==> r.subResource == "status")
    && (r.operation != DELETE && r.user != user ==>
          forall t :: ProofTrait(r.resource, t) ==> TraitKept(r, t))
    && (r.operation != DELETE && r.user == user ==>
          forall t :: LifecycleTrait(r.resource, t) ==> TraitKept(r, t))
    && (r.resource == LEASES && r.operation != DELETE ==> TokenReciprocal(r.newObject))
  }

  lemma FieldListed(user: string, resource: string, f: string)
    ensures ProofTrait(resource, StatusTrait(f)) ==> UnchangedStatusField(resource, f, user) in CommonExpressions(user)
    ensures LifecycleTrait(resource, StatusTrait(f)) ==>
              AuthorityCannotChangeStatusField(resource, f, user) in CommonExpressions(user)
  {
    ListsByName(resource, f);
    hide ProofField, LifecycleField, UnchangedStatusField, AuthorityCannotChangeStatusField;
    var a := UnchangedFields(LEASES, LEASE_PROOF_FIELDS, user);
    var c := UnchangedFields(INSTANCES, INSTANCE_PROOF_FIELDS, user);
    var d := LifecycleFields(LEASES, LEASE_LIFECYCLE_FIELDS, user);
    var e := LifecycleFields(INSTANCES, INSTANCE_LIFECYCLE_FIELDS, user);
    assert forall x :: x in a || x in c || x in d || x in e ==> x in FieldExpressions(user);
    assert forall x :: x in FieldExpressions(user) ==> x in CommonExpressions(user);
    if resource == LEASES && f in LEASE_PROOF_FIELDS {
      var i :| 0 <= i < |LEASE_PROOF_FIELDS| && LEASE_PROOF_FIELDS[i] == f;
      assert a[i] == UnchangedStatusField(resource, f, user);
    }
    if resource == INSTANCES && f in INSTANCE_PROOF_FIELDS {
      var i :| 0 <= i < |INSTANCE_PROOF_FIELDS| && INSTANCE_PROOF_FIELDS[i] == f;
      assert c[i] == UnchangedStatusField(resource, f, user);
    }
    if resource == LEASES && f in LEASE_LIFECYCLE_FIELDS {
      var i :| 0 <= i < |LEASE_LIFECYCLE_FIELDS| && LEASE_LIFECYCLE_FIELDS[i] == f;
      assert d[i] == AuthorityCannotChangeStatusField(resource, f, user);
    }
    if resource == INSTANCES && f in INSTANCE_LIFECYCLE_FIELDS {
      var i :| 0 <= i < |INSTANCE_LIFECYCLE_FIELDS| && INSTANCE_LIFECYCLE_FIELDS[i] == f;
      assert e[i] == AuthorityCannotChangeStatusField(resource, f, user);
    }
  }

  lemma TraitFenced(user: string, r: Request, t: Trait)
    requires forall e :: e in CommonExpressions(user) ==> Holds(e, r)
    requires r.operation != DELETE
    ensures ProofTrait(r.resource, t) && r.user != user ==> TraitKept(r, t)
    ensures LifecycleTrait(r.resource, t) && r.user == user ==> TraitKept(r, t)
  {
    match t
    case StatusTrait(f) =>
      FieldListed(user, r.resource, f);
      UnchangedStatusFieldMeaning(r.resource, f, user, r);
      AuthorityCannotChangeMeaning(r.resource, f, user, r);
    case AbsenceTrait =>
      assert CommonExpressions(user)[|CommonExpressions(user)| - 1] == AbsenceUnchanged(user);
      AbsenceUnchangedMeaning(user, r);
    case ReleaseTrait =>
  }

  lemma CommonFences(user: string, r: Request)
    requires forall e :: e in CommonExpressions(user) ==> Holds(e, r)
    ensures Fenced(user, r)
  {
    var common := CommonExpressions(user);
    assert common[0] == EvidenceOnlyByAuthority(user) && common[1] == AuthorityWritesStatusOnly(user);
    assert common[|common| - 2] == ConnectTokenReciprocal();
    EvidenceOnlyByAuthorityMeaning(user, r);
    AuthorityWritesStatusOnlyMeaning(user, r);
    ConnectTokenReciprocalMeaning(r);
    if r.operation != DELETE {
      forall t | ProofTrait(r.resource, t) && r.user != user ensures TraitKept(r, t) { TraitFenced(user, r, t); }
      forall t | LifecycleTrait(r.resource, t) && r.user == user ensures TraitKept(r, t) { TraitFenced(user, r, t); }
    }
  }

  /** What the API server's schemas guarantee of a request's objects. */
  predicate TypedRequest(r: Request) {
    && (r.operation != DELETE ==> Typed(r.newObject))
    && (r.oldObject != Null ==> Typed(r.oldObject))
    && (r.operation == UPDATE ==> r.oldObject != Null)
  }

  lemma FencedStatusField(user: string, r: Request, resource: string, f: string)
    requires Fenced(user, r) && TypedRequest(r)
    ensures ProofTrait(resource, StatusTrait(f)) ==> Holds(UnchangedStatusField(resource, f, user), r)
    ensures LifecycleTrait(resource, StatusTrait(f)) ==> Holds(AuthorityCannotChangeStatusField(resource, f, user), r)
  {
    UnchangedStatusFieldMeaning(resource, f, user, r);
    AuthorityCannotChangeMeaning(resource, f, user, r);
    hide TokenReciprocal, Absence, UnchangedStatusField, AuthorityCannotChangeStatusField, Eval;
  }

  lemma ListedField(user: string, e: Expr) returns (resource: string, f: string)
    requires e in FieldExpressions(user)
    ensures || (ProofTrait(resource, StatusTrait(f)) && e == UnchangedStatusField(resource, f, user))
            || (LifecycleTrait(resource, StatusTrait(f)) && e == AuthorityCannotChangeStatusField(resource, f, user))
  {
    hide UnchangedStatusField, AuthorityCannotChangeStatusField, ProofField, LifecycleField;
    var a := UnchangedFields(LEASES, LEASE_PROOF_FIELDS, user);
    var c := UnchangedFields(INSTANCES, INSTANCE_PROOF_FIELDS, user);
    var d := LifecycleFields(LEASES, LEASE_LIFECYCLE_FIELDS, user);
    var i :| 0 <= i < |FieldExpressions(user)| && FieldExpressions(user)[i] == e;
    if i < |a| {
      resource, f := LEASES, LEASE_PROOF_FIELDS[i];
    } else if i < |a| + |c| {
      resource, f := INSTANCES, INSTANCE_PROOF_FIELDS[i - |a|];
    } else if i < |a| + |c| + |d| {
      resource, f := LEASES, LEASE_LIFECYCLE_FIELDS[i - |a| - |c|];
    } else {
      resource, f := INSTANCES, INSTANCE_LIFECYCLE_FIELDS[i - |a| - |c| - |d|];
    }
    ListsByName(resource, f);
  }

  /** The shared expressions say exactly `Fenced`: they refuse nothing else. */
  lemma CommonIsExact(user: string, r: Request)
    requires TypedRequest(r)
    ensures (forall e :: e in CommonExpressions(user) ==> Holds(e, r)) <==> Fenced(user, r)
  {
    if forall e :: e in CommonExpressions(user) ==> Holds(e, r) {
      CommonFences(user, r);
    }
    if Fenced(user, r) {
      EvidenceOnlyByAuthorityMeaning(user, r);
      AuthorityWritesStatusOnlyMeaning(user, r);
      ConnectTokenReciprocalMeaning(r);
      AbsenceUnchangedMeaning(user, r);
      assert ProofTrait(LEASES, AbsenceTrait);
      forall e | e in CommonExpressions(user) ensures Holds(e, r) {
        if e in FieldExpressions(user) {
          var resource, f := ListedField(user, e);
          FencedStatusField(user, r, resource, f);
        }
      }
    }
  }

  /** The operator's required set lets through exactly the requests that respect the fences and retention. */
  lemma RequiredIsExact(user: string, r: Request)
    requires TypedRequest(r)
    ensures (forall e :: e in RequiredExpressions(user) ==> Holds(e, r)) <==> Fenced(user, r) && RetentionRespected(r)
  {
    hide Typed, Fenced, RetentionRespected, RetentionKept, CommonExpressions;
    CommonIsExact(user, r);
    RetentionKeptMeaning(r);
    assert forall e :: e in RequiredExpressions(user) <==> e in CommonExpressions(user) || e == RetentionKept();
  }

  /** What the required set protects, field by field and by name. */
  lemma RequiredProtectsByName(user: string, r: Request)
    requires (forall e :: e in RequiredExpressions(user) ==> Holds(e, r)) && r.operation != "DELETE"
    ensures r.resource == "clusterleases" && r.user != user ==>
              && FieldKept(r.oldObject, r.newObject, "teardownReceipt")
              && FieldKept(r.oldObject, r.newObject, "teardownEvidence")
              && FieldKept(r.oldObject, r.newObject, "teardownAttemptId")
              && FieldKept(r.oldObject, r.newObject, "unboundReleaseVerifiedAt")
              && FieldKept(r.oldObject, r.newObject, "teardownAcknowledgement")
    ensures r.resource == "clusterinstances" && r.user != user ==>
              && FieldKept(r.oldObject, r.newObject, "creationManifest")
              && FieldKept(r.oldObject, r.newObject, "teardownIdentities")
    ensures r.resource == "clusterleases" && r.user == user ==>
              && FieldKept(r.oldObject, r.newObject, "binding")
              && FieldKept(r.oldObject, r.newObject, "clusterName")
              && FieldKept(r.oldObject, r.newObject, "phase")
              && FieldKept(r.oldObject, r.newObject, "connectTokenCreation")
    ensures r.resource == "clusterinstances" && r.user == user ==>
              && FieldKept(r.oldObject, r.newObject, "binding")
              && FieldKept(r.oldObject, r.newObject, "leaseRef")
              && FieldKept(r.oldObject, r.newObject, "phase")
  {
    assert forall e :: e in CommonExpressions(user) ==> e in RequiredExpressions(user);
    hide RequiredExpressions, CommonExpressions, FieldKept, Eval;
    forall f
      ensures ProofField(r.resource, f) && r.user != user ==> FieldKept(r.oldObject, r.newObject, f)
      ensures LifecycleField(r.resource, f) && r.user == user ==> FieldKept(r.oldObject, r.newObject, f)
    {
      hide ProofField, LifecycleField, UnchangedStatusField, AuthorityCannotChangeStatusField;
      FieldListed(user, r.resource, f);
      UnchangedStatusFieldMeaning(r.resource, f, user, r);
      AuthorityCannotChangeMeaning(r.resource, f, user, r);
    }
  }

  /** Two versions of an object with the same metadata and the same status but for field `f`. */
  ghost predicate DifferIn(a: Value, b: Value, f: string) {
    a == b || (a.Obj? && b.Obj? && Child(Present(a), "metadata") == Child(Present(b), "metadata")
               && forall g :: g != f ==> StatusField(a, g) == StatusField(b, g))
  }

  /** The status fields some required rule reads. */
  predicate Policed(resource: string, f: string) {
    ProofField(resource, f) || LifecycleField(resource, f) || (resource == "clusterleases" && f == "conditions")
  }

  lemma KeptAlike(r: Request, r': Request, f: string, g: string)
    requires DifferIn(r.oldObject, r'.oldObject, f) && DifferIn(r.newObject, r'.newObject, f) && g != f
    ensures FieldKept(r.oldObject, r.newObject, g) <==> FieldKept(r'.oldObject, r'.newObject, g)
  {}

  lemma AbsenceAlike(a: Value, b: Value, f: string)
    requires DifferIn(a, b, f) && f != "conditions"
    ensures Absence(a) == Absence(b)
  {
    hide Keyed, KeepEq;
  }

  lemma FinalizersAlike(a: Value, b: Value, f: string)
    requires DifferIn(a, b, f)
    ensures Finalizers(a) == Finalizers(b) && FinalizersLegible(a) == FinalizersLegible(b)
  {}

  /** Nothing else is restricted: no required rule answers differently for what any other status field holds. */
  lemma OtherFieldsFree(user: string, r: Request, r': Request, f: string, e: Expr)
    requires r' == r.(oldObject := r'.oldObject, newObject := r'.newObject) && !Policed(r.resource, f)
    requires DifferIn(r.oldObject, r'.oldObject, f) && DifferIn(r.newObject, r'.newObject, f)
    requires e in RequiredExpressions(user)
    ensures Holds(e, r) <==> Holds(e, r')
  {
    EvidenceOnlyByAuthorityMeaning(user, r);
    EvidenceOnlyByAuthorityMeaning(user, r');
    AuthorityWritesStatusOnlyMeaning(user, r);
    AuthorityWritesStatusOnlyMeaning(user, r');
    hide Eval, EvidenceOnlyByAuthority, AuthorityWritesStatusOnly, UnchangedStatusField,
         AuthorityCannotChangeStatusField, ConnectTokenReciprocal, AbsenceUnchanged, RetentionKept;
    if e in FieldExpressions(user) {
      FieldRuleFree(user, r, r', f, e);
    } else if r.resource == LEASES {
      LeaseRulesFree(user, r, r', f);
    } else {
      OtherKindsFree(user, r);
      OtherKindsFree(user, r');
    }
  }

  lemma FieldRuleFree(user: string, r: Request, r': Request, f: string, e: Expr)
    requires r' == r.(oldObject := r'.oldObject, newObject := r'.newObject) && !Policed(r.resource, f)
    requires DifferIn(r.oldObject, r'.oldObject, f) && DifferIn(r.newObject, r'.newObject, f)
    requires e in FieldExpressions(user)
    ensures Holds(e, r) <==> Holds(e, r')
  {
    hide Eval, UnchangedStatusField, AuthorityCannotChangeStatusField, FieldExpressions, FieldKept, DifferIn,
         ProofField, LifecycleField;
    var resource, g := ListedField(user, e);
    UnchangedStatusFieldMeaning(resource, g, user, r);
    UnchangedStatusFieldMeaning(resource, g, user, r');
    AuthorityCannotChangeMeaning(resource, g, user, r);
    AuthorityCannotChangeMeaning(resource, g, user, r');
    if r.resource == resource { KeptAlike(r, r', f, g); }
  }

  lemma OtherKindsFree(user: string, r: Request)
    requires r.resource != LEASES
    ensures Holds(ConnectTokenReciprocal(), r) && Holds(AbsenceUnchanged(user), r) && Holds(RetentionKept(), r)
  {
    ConnectTokenReciprocalMeaning(r);
    AbsenceUnchangedMeaning(user, r);
    RetentionKeptMeaning(r);
  }

  lemma LeaseRulesFree(user: string, r: Request, r': Request, f: string)
    requires r' == r.(oldObject := r'.oldObject, newObject := r'.newObject)
    requires r.resource == LEASES && !Policed(r.resource, f)
    requires DifferIn(r.oldObject, r'.oldObject, f) && DifferIn(r.newObject, r'.newObject, f)
    ensures Holds(ConnectTokenReciprocal(), r) <==> Holds(ConnectTokenReciprocal(), r')
    ensures Holds(AbsenceUnchanged(user), r) <==> Holds(AbsenceUnchanged(user), r')
    ensures Holds(RetentionKept(), r) <==> Holds(RetentionKept(), r')
  {
    ConnectTokenReciprocalMeaning(r);
    ConnectTokenReciprocalMeaning(r');
    AbsenceUnchangedMeaning(user, r);
    AbsenceUnchangedMeaning(user, r');
    RetentionKeptMeaning(r);
    RetentionKeptMeaning(r');
    AbsenceAlike(r.oldObject, r'.oldObject, f);
    AbsenceAlike(r.newObject, r'.newObject, f);
    FinalizersAlike(r.oldObject, r'.oldObject, f);
    FinalizersAlike(r.newObject, r'.newObject, f);
    hide Eval, ConnectTokenReciprocal, AbsenceUnchanged, RetentionKept, Absence, Finalizers, FinalizersLegible,
         PairedWith;
  }

  /** The same for the set the chart renders. */
  lemma ChartIsExact(user: string, controlPlane: string, r: Request)
    requires TypedRequest(r)
    ensures (forall e :: e in ChartExpressions(user, controlPlane) ==> Holds(e, r)) <==>
            && Fenced(user, r) && RetentionRespectedOrReleased(controlPlane, r)
            && ReleaseLeftToOperator(LEASES, controlPlane, user, r)
            && ReleaseLeftToOperator(INSTANCES, controlPlane, user, r)
  {
    hide Typed, Fenced, RetentionRespectedOrReleased, RetentionKeptOrReleased, CommonExpressions,
         ReleaseLeftToOperator, ReleaseGrantedByOperator;
    CommonIsExact(user, r);
    RetentionKeptOrReleasedMeaning(controlPlane, r);
    ReleaseGrantedByOperatorMeaning(LEASES, controlPlane, user, r);
    ReleaseGrantedByOperatorMeaning(INSTANCES, controlPlane, user, r);
    assert forall e :: e in ChartExpressions(user, controlPlane) <==>
             || e in CommonExpressions(user) || e == RetentionKeptOrReleased(controlPlane)
             || e == ReleaseGrantedByOperator(LEASES, controlPlane, user)
             || e == ReleaseGrantedByOperator(INSTANCES, controlPlane, user);
  }

  /** Both expression sets fence every admitted step. */
  lemma StepFenced(parse: Compiler, p: Policy, b: Binding, required: seq<Expr>, user: string, run: Run, i: nat)
    requires Enforces(parse, p, b, required) && CommonExpressions(user) <= required
    requires IsRun(parse, p, b, run) && i < |run.requests|
    ensures Fenced(user, run.requests[i])
    ensures forall e :: e in required ==> Holds(e, run.requests[i])
  {
    CommonFences(user, run.requests[i]);
  }

  // ---------------------------------------------------------------- step theorems

  lemma StampKeeps(o: Value, marked: Value, t: Trait)
    requires Stamped(o, marked)
    ensures Read(marked, t) == Read(o, t)
  {}

  /** On every step of every run: proof traits of a surviving object change only by the authority,
      lifecycle traits only by others, evidence only by the authority, and the authority neither
      adds nor removes a lease or an instance. */
  lemma StepSeparatesAuthority(parse: Compiler, p: Policy, b: Binding, required: seq<Expr>, user: string, run: Run,
      i: nat)
    requires Enforces(parse, p, b, required) && CommonExpressions(user) <= required
    requires IsRun(parse, p, b, run) && i < |run.requests|
    ensures forall k, t :: k in run.states[i].objects && k in run.states[i + 1].objects
                           && Read(run.states[i].objects[k], t) != Read(run.states[i + 1].objects[k], t) ==>
              && (ProofTrait(k.resource, t) ==> run.requests[i].user == user)
              && (LifecycleTrait(k.resource, t) ==> run.requests[i].user != user)
    ensures run.requests[i].user != user ==>
              forall k: Key :: k.resource == EVIDENCE ==>
                (k in run.states[i].objects <==> k in run.states[i + 1].objects)
                && (k in run.states[i].objects ==> run.states[i].objects[k] == run.states[i + 1].objects[k])
    ensures run.requests[i].user == user ==>
              forall k: Key :: k.resource in {LEASES, INSTANCES} ==>
                (k in run.states[i].objects <==> k in run.states[i + 1].objects)
  {
    hide Enforces, Admits, TokenReciprocal, CommonExpressions;
    var s, r, s' := run.states[i], run.requests[i], run.states[i + 1];
    StepFenced(parse, p, b, required, user, run, i);
    forall k, t | k in s.objects && k in s'.objects && Read(s.objects[k], t) != Read(s'.objects[k], t)
      ensures ProofTrait(k.resource, t) ==> r.user == user
      ensures LifecycleTrait(k.resource, t) ==> r.user != user
    {
      assert k == KeyOf(r);
      if r.operation == DELETE { StampKeeps(s.objects[k], s'.objects[k], t); }
    }
    if r.user == user && r.resource in {LEASES, INSTANCES} {
      NoDeadRun(parse, p, b, run, i);
      assert r.operation == UPDATE by { OperationsDistinct(); }
      assert !Dead(r.newObject);
    }
  }

  lemma OperationsDistinct()
    ensures CREATE != UPDATE && CREATE != DELETE && UPDATE != DELETE
  {
    assert CREATE[0] == 'C' && UPDATE[0] == 'U' && DELETE[0] == 'D';
  }

  lemma {:induction false} NoDeadRun(parse: Compiler, p: Policy, b: Binding, run: Run, i: nat)
    requires IsRun(parse, p, b, run) && i < |run.states|
    ensures NoDead(run.states[i])
  {
    if i > 0 {
      NoDeadRun(parse, p, b, run, i - 1);
      var s, r, s' := run.states[i - 1], run.requests[i - 1], run.states[i];
      assert Next(s, r, s');
      if r.operation == DELETE && Finalizers(r.oldObject) != [] {
        var o := s'.objects[KeyOf(r)];
        assert Finalizers(r.oldObject)[0] in Finalizers(o);
      }
    }
  }

  // ---------------------------------------------------------------- authorship over whole runs

  /** Step `k` gave this very object the value `v` it did not have before. */
  predicate Introduces(run: Run, k: nat, key: Key, uid: Slot, t: Trait, v: Slot)
    requires k < |run.requests|
  {
    var r := run.requests[k];
    && KeyOf(r) == key && r.operation != DELETE && Uid(r.newObject) == uid && Read(r.newObject, t) == v
    && (r.operation == CREATE || Read(r.oldObject, t) != v)
  }

  /** Every recorded trait of a live object was introduced by some earlier write of that object. */
  lemma {:induction false} TraitHasAuthor(parse: Compiler, p: Policy, b: Binding, run: Run, j: nat, key: Key,
      t: Trait) returns (k: nat)
    requires IsRun(parse, p, b, run) && j < |run.states| && NoneOf(run.states[0], key.resource)
    requires key in run.states[j].objects && Read(run.states[j].objects[key], t) != Unset(t)
    ensures k < j && Introduces(run, k, key, Uid(run.states[j].objects[key]), t, Read(run.states[j].objects[key], t))
  {
    hide Admits, ProofRequest, Read, Uid, Dead, Deleting, Finalizers;
    assert j > 0;
    var s, r, s' := run.states[j - 1], run.requests[j - 1], run.states[j];
    assert Next(s, r, s');
    var o := s'.objects[key];
    if key == KeyOf(r) && r.operation != CREATE && r.operation != UPDATE { StampKeeps(s.objects[key], o, t); }
    if key == KeyOf(r) && r.operation != DELETE
       && (r.operation == CREATE || Read(r.oldObject, t) != Read(o, t)) {
      k := j - 1;
    } else {
      k := TraitHasAuthor(parse, p, b, run, j - 1, key, t);
    }
  }

  /** The authority itself wrote `v`, through the status subresource of a live object. */
  predicate AttestedAt(run: Run, k: nat, user: string, key: Key, uid: Slot, t: Trait, v: Slot)
    requires k < |run.requests|
  {
    && Introduces(run, k, key, uid, t, v)
    && run.requests[k].user == user && run.requests[k].operation == UPDATE && run.requests[k].subResource == "status"
  }

  lemma ProofHasAuthorityAuthor(parse: Compiler, p: Policy, b: Binding, required: seq<Expr>, user: string,
                                run: Run, j: nat, key: Key, t: Trait) returns (k: nat)
    requires Enforces(parse, p, b, required) && CommonExpressions(user) <= required
    requires IsRun(parse, p, b, run) && j < |run.states| && NoneOf(run.states[0], key.resource)
    requires key in run.states[j].objects && ProofTrait(key.resource, t)
    requires Read(run.states[j].objects[key], t) != Unset(t)
    ensures k < j && AttestedAt(run, k, user, key, Uid(run.states[j].objects[key]), t,
        Read(run.states[j].objects[key], t))
  {
    k := TraitHasAuthor(parse, p, b, run, j, key, t);
    StepFenced(parse, p, b, required, user, run, k);
    var r := run.requests[k];
    assert Next(run.states[k], r, run.states[k + 1]);
    OperationsDistinct();
    assert r.user != user ==> TraitKept(r, t);
  }

  lemma LifecycleHasOtherAuthor(parse: Compiler, p: Policy, b: Binding, required: seq<Expr>, user: string,
                                run: Run, j: nat, key: Key, t: Trait) returns (k: nat)
    requires Enforces(parse, p, b, required) && CommonExpressions(user) <= required
    requires IsRun(parse, p, b, run) && j < |run.states| && NoneOf(run.states[0], key.resource)
    requires key in run.states[j].objects && LifecycleTrait(key.resource, t)
    requires Read(run.states[j].objects[key], t) != Unset(t)
    ensures k < j && Introduces(run, k, key, Uid(run.states[j].objects[key]), t, Read(run.states[j].objects[key], t))
    ensures run.requests[k].user != user
  {
    k := TraitHasAuthor(parse, p, b, run, j, key, t);
    StepFenced(parse, p, b, required, user, run, k);
    var r := run.requests[k];
    assert Next(run.states[k], r, run.states[k + 1]);
    OperationsDistinct();
    assert r.user == user ==> TraitKept(r, t);
  }

  lemma StampKeepsToken(o: Value, marked: Value)
    requires Stamped(o, marked)
    ensures TokenReciprocal(marked) == TokenReciprocal(o)
  {
    StampKeeps(o, marked, StatusTrait("connectTokenCreation"));
    StampKeeps(o, marked, StatusTrait("binding"));
  }

  /** Every live lease keeps connect-token creation and binding reciprocal, at every state. */
  lemma {:induction false} TokensStayReciprocal(
    parse: Compiler, p: Policy, b: Binding, required: seq<Expr>, user: string, run: Run, j: nat, key: Key)
    requires Enforces(parse, p, b, required) && CommonExpressions(user) <= required
    requires IsRun(parse, p, b, run) && j < |run.states| && NoneOf(run.states[0], LEASES)
    requires key in run.states[j].objects && key.resource == LEASES
    ensures TokenReciprocal(run.states[j].objects[key])
  {
    hide TokenReciprocal, Enforces, Admits;
    assert j > 0;
    var s, r, s' := run.states[j - 1], run.requests[j - 1], run.states[j];
    assert Next(s, r, s');
    if key == KeyOf(r) && r.operation != DELETE {
      StepFenced(parse, p, b, required, user, run, j - 1);
    } else {
      TokensStayReciprocal(parse, p, b, required, user, run, j - 1, key);
      if key == KeyOf(r) { StampKeepsToken(s.objects[key], s'.objects[key]); }
    }
  }

  // ---------------------------------------------------------------- receipt retention

  /** The lease with this UID is still stored and still retained. */
  predicate StillRetained(s: State, key: Key, uid: Slot) {
    key in s.objects && Uid(s.objects[key]) == uid && Retained(s.objects[key])
  }

  ghost predicate AcknowledgedBefore(run: Run, user: string, key: Key, uid: Slot, j: nat)
    requires j <= |run.requests|
  {
    exists k: nat, v: Slot :: k < j && v.Present? && AttestedAt(run, k, user, key, uid, StatusTrait(ACK), v)
  }

  /** A step that loses retention is an update of that lease which the policy had to let through. */
  lemma RetentionLostByUpdate(s: State, r: Request, s': State, key: Key)
    requires Next(s, r, s') && key in s.objects && key.resource == LEASES && Retained(s.objects[key])
    requires !StillRetained(s', key, Uid(s.objects[key]))
    ensures KeyOf(r) == key && r.operation == UPDATE && r.oldObject == s.objects[key] && !Retained(r.newObject)
  {
    OperationsDistinct();
    assert Str(RETENTION) in Finalizers(s.objects[key]);
    assert Finalizers(s.objects[key]) != [];
  }

  lemma AckOnRecord(parse: Compiler, p: Policy, b: Binding, required: seq<Expr>, user: string, run: Run, j: nat,
      key: Key)
    requires Enforces(parse, p, b, required) && CommonExpressions(user) <= required
    requires IsRun(parse, p, b, run) && j < |run.states| && NoneOf(run.states[0], LEASES)
    requires key in run.states[j].objects && key.resource == LEASES
    requires StatusField(run.states[j].objects[key], ACK).Present?
    ensures AcknowledgedBefore(run, user, key, Uid(run.states[j].objects[key]), j)
  {
    var k := ProofHasAuthorityAuthor(parse, p, b, required, user, run, j, key, StatusTrait(ACK));
  }

  lemma RetentionLostAfterAck(parse: Compiler, p: Policy, b: Binding, user: string, run: Run, m: nat, key: Key)
    requires Enforces(parse, p, b, RequiredExpressions(user))
    requires IsRun(parse, p, b, run) && m < |run.requests| && NoneOf(run.states[0], LEASES)
    requires key in run.states[m].objects && key.resource == LEASES && Retained(run.states[m].objects[key])
    requires !StillRetained(run.states[m + 1], key, Uid(run.states[m].objects[key]))
    ensures AcknowledgedBefore(run, user, key, Uid(run.states[m].objects[key]), m)
  {
    var required := RequiredExpressions(user);
    StepFenced(parse, p, b, required, user, run, m);
    RetentionLostByUpdate(run.states[m], run.requests[m], run.states[m + 1], key);
    assert required[|required| - 1] == RetentionKept();
    RetentionKeptMeaning(run.requests[m]);
    AckOnRecord(parse, p, b, required, user, run, m, key);
  }

  lemma AcknowledgedLater(run: Run, user: string, key: Key, uid: Slot, i: nat, j: nat)
    requires i <= j <= |run.requests| && AcknowledgedBefore(run, user, key, uid, i)
    ensures AcknowledgedBefore(run, user, key, uid, j)
  {
    var k: nat, v: Slot :| k < i && v.Present? && AttestedAt(run, k, user, key, uid, StatusTrait(ACK), v);
    assert k < j;
  }

  /** Causality: a lease that ever carried the retention finalizer keeps it, and so stays stored,
      unless the authority acknowledged that very lease earlier in the run. */
  lemma {:induction false} RetentionOutlivesAcknowledgement(
    parse: Compiler, p: Policy, b: Binding, user: string, run: Run, i: nat, j: nat, key: Key)
    requires Enforces(parse, p, b, RequiredExpressions(user))
    requires IsRun(parse, p, b, run) && i <= j < |run.states| && NoneOf(run.states[0], LEASES)
    requires key in run.states[i].objects && key.resource == LEASES && Retained(run.states[i].objects[key])
    ensures || StillRetained(run.states[j], key, Uid(run.states[i].objects[key]))
            || AcknowledgedBefore(run, user, key, Uid(run.states[i].objects[key]), j)
    decreases j
  {
    hide Admits, Next, Enforces, Retained, AcknowledgedBefore;
    var uid := Uid(run.states[i].objects[key]);
    if i < j {
      RetentionOutlivesAcknowledgement(parse, p, b, user, run, i, j - 1, key);
      if StillRetained(run.states[j - 1], key, uid) {
        if !StillRetained(run.states[j], key, uid) {
          RetentionLostAfterAck(parse, p, b, user, run, j - 1, key);
          AcknowledgedLater(run, user, key, uid, j - 1, j);
        }
      } else {
        AcknowledgedLater(run, user, key, uid, j - 1, j);
      }
    }
  }

  /** The operator's release: the control plane dropped retention from a quarantined lease whose
      annotation, introduced by a user that is neither Kobe identity, names the lease's own UID. */
  ghost predicate OperatorReleasedBefore(run: Run, user: string, controlPlane: string, key: Key, uid: Slot, j: nat)
    requires j <= |run.requests|
  {
    exists m: nat, k: nat :: k < m < j && OperatorReleasedAt(run, user, controlPlane, key, uid, m, k)
  }

  predicate OperatorReleasedAt(run: Run, user: string, controlPlane: string, key: Key, uid: Slot, m: nat, k: nat)
    requires k < m < |run.requests|
  {
    && KeyOf(run.requests[m]) == key && run.requests[m].user == controlPlane
    && Uid(run.requests[m].oldObject) == uid && QuarantineReleased(run.requests[m].oldObject)
    && Introduces(run, k, key, uid, ReleaseTrait, uid)
    && run.requests[k].user !in {controlPlane, user}
  }

  lemma GrantHasOperatorAuthor(parse: Compiler, p: Policy, b: Binding, user: string, controlPlane: string, run: Run,
      j: nat, key: Key)
    returns (k: nat)
    requires Enforces(parse, p, b, ChartExpressions(user, controlPlane))
    requires IsRun(parse, p, b, run) && j < |run.states| && NoneOf(run.states[0], LEASES)
    requires key in run.states[j].objects && key.resource == LEASES
    requires ReleaseAnnotation(run.states[j].objects[key]).Present?
    ensures k < j && run.requests[k].user !in {controlPlane, user}
    ensures Introduces(run, k, key, Uid(run.states[j].objects[key]), ReleaseTrait,
                       ReleaseAnnotation(run.states[j].objects[key]))
  {
    k := TraitHasAuthor(parse, p, b, run, j, key, ReleaseTrait);
    var required := ChartExpressions(user, controlPlane);
    StepFenced(parse, p, b, required, user, run, k);
    assert required[|required| - 2] == ReleaseGrantedByOperator(LEASES, controlPlane, user);
    ReleaseGrantedByOperatorMeaning(LEASES, controlPlane, user, run.requests[k]);
    assert Next(run.states[k], run.requests[k], run.states[k + 1]);
  }

  lemma ChartRetentionLost(parse: Compiler, p: Policy, b: Binding, user: string, controlPlane: string, run: Run,
      m: nat, key: Key)
    requires Enforces(parse, p, b, ChartExpressions(user, controlPlane))
    requires IsRun(parse, p, b, run) && m < |run.requests| && NoneOf(run.states[0], LEASES)
    requires key in run.states[m].objects && key.resource == LEASES && Retained(run.states[m].objects[key])
    requires !StillRetained(run.states[m + 1], key, Uid(run.states[m].objects[key]))
    ensures || AcknowledgedBefore(run, user, key, Uid(run.states[m].objects[key]), m)
            || OperatorReleasedBefore(run, user, controlPlane, key, Uid(run.states[m].objects[key]), m + 1)
  {
    var required := ChartExpressions(user, controlPlane);
    var r, uid := run.requests[m], Uid(run.states[m].objects[key]);
    StepFenced(parse, p, b, required, user, run, m);
    RetentionLostByUpdate(run.states[m], r, run.states[m + 1], key);
    assert required[|required| - 3] == RetentionKeptOrReleased(controlPlane);
    RetentionKeptOrReleasedMeaning(controlPlane, r);
    if AckKept(r.oldObject, r.newObject) {
      AckOnRecord(parse, p, b, required, user, run, m, key);
    } else {
      var k := GrantHasOperatorAuthor(parse, p, b, user, controlPlane, run, m, key);
      assert OperatorReleasedAt(run, user, controlPlane, key, uid, m, k);
    }
  }

  lemma OperatorReleasedLater(run: Run, user: string, controlPlane: string, key: Key, uid: Slot, i: nat, j: nat)
    requires i <= j <= |run.requests| && OperatorReleasedBefore(run, user, controlPlane, key, uid, i)
    ensures OperatorReleasedBefore(run, user, controlPlane, key, uid, j)
  {
    var m: nat, k: nat :| k < m < i && OperatorReleasedAt(run, user, controlPlane, key, uid, m, k);
    assert k < m < j;
  }

  lemma RunLength(parse: Compiler, p: Policy, b: Binding, run: Run)
    requires IsRun(parse, p, b, run)
    ensures |run.states| == |run.requests| + 1
  {}

  lemma ChartRetentionStep(parse: Compiler, p: Policy, b: Binding, user: string, controlPlane: string, run: Run,
                           m: nat, key: Key, uid: Slot)
    requires Enforces(parse, p, b, ChartExpressions(user, controlPlane))
    requires IsRun(parse, p, b, run) && m < |run.requests| && NoneOf(run.states[0], LEASES) && key.resource == LEASES
    requires || StillRetained(run.states[m], key, uid)
             || AcknowledgedBefore(run, user, key, uid, m)
             || OperatorReleasedBefore(run, user, controlPlane, key, uid, m)
    ensures || StillRetained(run.states[m + 1], key, uid)
            || AcknowledgedBefore(run, user, key, uid, m + 1)
            || OperatorReleasedBefore(run, user, controlPlane, key, uid, m + 1)
  {
    assert |run.states| == |run.requests| + 1;
    hide IsRun, NoneOf, Enforces, Retained, AcknowledgedBefore, OperatorReleasedBefore, ChartExpressions, Uid;
    if StillRetained(run.states[m], key, uid) && !StillRetained(run.states[m + 1], key, uid) {
      ChartRetentionLost(parse, p, b, user, controlPlane, run, m, key);
    }
    if AcknowledgedBefore(run, user, key, uid, m) { AcknowledgedLater(run, user, key, uid, m, m + 1); }
    if OperatorReleasedBefore(run, user, controlPlane, key, uid, m) {
      OperatorReleasedLater(run, user, controlPlane, key, uid, m, m + 1);
    }
  }

  /** Causality under the set the chart renders: retention goes only after the authority's
      acknowledgement, or through an operator's own release of that quarantined lease. */
  lemma {:induction false} ChartRetentionOutlivesRelease(
    parse: Compiler, p: Policy, b: Binding, user: string, controlPlane: string, run: Run, i: nat, j: nat, key: Key)
    requires Enforces(parse, p, b, ChartExpressions(user, controlPlane))
    requires IsRun(parse, p, b, run) && i <= j < |run.states| && NoneOf(run.states[0], LEASES)
    requires key in run.states[i].objects && key.resource == LEASES && Retained(run.states[i].objects[key])
    ensures || StillRetained(run.states[j], key, Uid(run.states[i].objects[key]))
            || AcknowledgedBefore(run, user, key, Uid(run.states[i].objects[key]), j)
            || OperatorReleasedBefore(run, user, controlPlane, key, Uid(run.states[i].objects[key]), j)
    decreases j
  {
    hide IsRun, NoneOf, Enforces, Retained, AcknowledgedBefore, OperatorReleasedBefore, ChartExpressions, Uid;
    RunLength(parse, p, b, run);
    if i < j {
      hide StillRetained;
      ChartRetentionOutlivesRelease(parse, p, b, user, controlPlane, run, i, j - 1, key);
      ChartRetentionStep(parse, p, b, user, controlPlane, run, j - 1, key, Uid(run.states[i].objects[key]));
    }
  }

  /** Causality for what startup's checks accept with the chart's texts. */
  lemma AcceptedChartRetains(
    parse: Compiler, p: Policy, b: Binding, name: string, pc: string, bc: string, user: string, controlPlane: string,
    run: Run, i: nat, j: nat, key: Key)
    requires ValidatePolicy(p, b, name, pc, bc, [AUTHORITY_COVERAGE], Texts(ChartExpressions(user, controlPlane))).Ok?
    requires NoRawWhite(user) && NoRawWhite(controlPlane) && Reads(parse, ChartExpressions(user, controlPlane))
    requires IsRun(parse, p, b, run) && i <= j < |run.states| && NoneOf(run.states[0], LEASES)
    requires key in run.states[i].objects && key.resource == LEASES && Retained(run.states[i].objects[key])
    ensures || StillRetained(run.states[j], key, Uid(run.states[i].objects[key]))
            || AcknowledgedBefore(run, user, key, Uid(run.states[i].objects[key]), j)
            || OperatorReleasedBefore(run, user, controlPlane, key, Uid(run.states[i].objects[key]), j)
  {
    hide ValidatePolicy, Reads, NoRawWhite, Enforces, IsRun;
    ChartEnforces(parse, p, b, name, pc, bc, user, controlPlane);
    ChartRetentionOutlivesRelease(parse, p, b, user, controlPlane, run, i, j, key);
  }

  /** The operator's startup check refuses every policy whose texts all read as the chart's: the
      retention rule it requires is not among them. */
  lemma ChartPolicyRefusedAtStartup(p: Policy, b: Binding, name: string, user: string, controlPlane: string)
    requires p.spec.Some? ==> forall k :: 0 <= k < |p.spec.value.validations| ==>
               Lists(Texts(ChartExpressions(user, controlPlane)), p.spec.value.validations[k])
    ensures ValidateObjects(p, b, name, user) == Err(Invalid("ValidatingAdmissionPolicy"))
  {
    hide ValidatePolicy, ChartExpressions, RetentionKept, Normalize, SourceText;
    var required, chart := RequiredExpressions(user), ChartExpressions(user, controlPlane);
    assert required[|required| - 1] == RetentionKept();
    if p.spec.Some? {
      var texts := p.spec.value.validations;
      forall k | 0 <= k < |texts| ensures Normalize(texts[k]) != Normalize(SourceText(RetentionKept())) {
        assert Lists(Texts(chart), texts[k]);
        var m :| 0 <= m < |Texts(chart)| && Normalize(Texts(chart)[m]) == Normalize(texts[k]);
        ChartReadsApart(user, controlPlane, chart[m]);
      }
    }
    MissingTextRefused(p, b, name, "ValidatingAdmissionPolicy", "ValidatingAdmissionPolicyBinding",
                       [AUTHORITY_COVERAGE], Texts(required), |required| - 1);
  }
}
