/**
 The admission expressions that fence the teardown authority, and what each one means for a
 request: every `...Meaning` lemma replaces a CEL expression by a statement about the objects.
 */
module AuthorityExpressions {
  import opened Cel

  const LEASES := "clusterleases"
  const INSTANCES := "clusterinstances"
  const EVIDENCE := "verifiedteardownevidence"
  const CREATE := "CREATE"
  const UPDATE := "UPDATE"
  const DELETE := "DELETE"
  const KOBE_DOMAIN := "kobe.kunobi.ninja/"
  const RETENTION := KOBE_DOMAIN + "teardown-receipt-retention"
  const RELEASE := KOBE_DOMAIN + "release-quarantine"
  const ACK := "teardownAcknowledgement"

  const LEASE_PROOF_FIELDS: seq<string> :=
    ["teardownReceipt", "teardownEvidence", "teardownAttemptId", "unboundReleaseVerifiedAt", ACK]
  const INSTANCE_PROOF_FIELDS: seq<string> := ["creationManifest", "teardownIdentities"]
  const LEASE_LIFECYCLE_FIELDS: seq<string> := ["binding", "clusterName", "phase", "connectTokenCreation"]
  const INSTANCE_LIFECYCLE_FIELDS: seq<string> := ["binding", "leaseRef", "phase"]

  // ---------------------------------------------------------------- expression builders

  function IsNot(a: Attribute, s: string): Expr { Ne(Attr(a), Lit(Str(s))) }
  function Is(a: Attribute, s: string): Expr { Eq(Attr(a), Lit(Str(s))) }

  function Status(w: Expr): Expr { Select(w, "status") }
  function Metadata(w: Expr): Expr { Select(w, "metadata") }

  /** `!has(w.status) || !has(w.status.f)` */
  function Missing(w: Expr, f: string): Expr {
    Or(Not(Has(w, "status")), Not(Has(Status(w), f)))
  }

  /** `has(w.status) && has(w.status.f)` */
  function Carries(w: Expr, f: string): Expr {
    And(Has(w, "status"), Has(Status(w), f))
  }

  /** Both objects carry the field with one value. */
  function SameValue(f: string): Expr {
    And(And(And(Carries(OldObject, f), Has(Object, "status")), Has(Status(Object), f)),
        Eq(Select(Status(Object), f), Select(Status(OldObject), f)))
  }

  function FieldUnchanged(f: string): Expr {
    Cond(Eq(OldObject, Lit(Null)),
         Missing(Object, f),
         Or(And(Missing(OldObject, f), Missing(Object, f)), SameValue(f)))
  }

  function UnchangedStatusField(resource: string, f: string, user: string): Expr {
    Or(Or(Or(IsNot(Resource, resource), Is(Username, user)), Is(Operation, DELETE)), FieldUnchanged(f))
  }

  function AuthorityCannotChangeStatusField(resource: string, f: string, user: string): Expr {
    Or(Or(Or(IsNot(Resource, resource), IsNot(Username, user)), Is(Operation, DELETE)), FieldUnchanged(f))
  }

  function EvidenceOnlyByAuthority(user: string): Expr {
    Or(IsNot(Resource, EVIDENCE), Is(Username, user))
  }

  function AuthorityWritesStatusOnly(user: string): Expr {
    Or(Or(IsNot(Username, user), Not(In(Attr(Resource), Lit(List([Str(LEASES), Str(INSTANCES)]))))),
       Is(SubResource, "status"))
  }

  function AbsenceConditions(w: Expr): Expr {
    FilterEq(Select(Status(w), "conditions"), "type", Str("AllocationAbsent"))
  }

  function OldAbsenceMissing(): Expr {
    Or(Or(Eq(OldObject, Lit(Null)), Not(Has(OldObject, "status"))), Not(Has(Status(OldObject), "conditions")))
  }

  function AbsenceUnchanged(user: string): Expr {
    Or(Or(Or(IsNot(Resource, LEASES), Is(Username, user)), Is(Operation, DELETE)),
       Eq(Cond(OldAbsenceMissing(), Lit(List([])), AbsenceConditions(OldObject)),
          Cond(Missing(Object, "conditions"), Lit(List([])), AbsenceConditions(Object))))
  }

  function Creation(): Expr { Select(Status(Object), "connectTokenCreation") }
  function Identity(): Expr { Select(Creation(), "identity") }
  function BoundToken(): Expr { Select(Select(Status(Object), "binding"), "connectToken") }

  function SameTokenField(f: string): Expr { Eq(Select(Identity(), f), Select(BoundToken(), f)) }

  function TokenIdentityMatches(): Expr {
    And(And(And(And(And(SameTokenField("apiVersion"), SameTokenField("kind")), SameTokenField("name")),
                SameTokenField("uid")),
            Eq(Has(Identity(), "namespace"), Has(BoundToken(), "namespace"))),
        Or(Not(Has(Identity(), "namespace")), SameTokenField("namespace")))
  }

  function TokenPaired(): Expr {
    And(And(Has(Status(Object), "binding"),
            Eq(Has(Creation(), "identity"), Has(Select(Status(Object), "binding"), "connectToken"))),
        Or(Not(Has(Creation(), "identity")), TokenIdentityMatches()))
  }

  function ConnectTokenReciprocal(): Expr {
    Or(Or(Or(Or(Or(IsNot(Resource, LEASES), Is(Operation, DELETE)),
                Not(Has(Object, "status"))), Not(Has(Status(Object), "connectTokenCreation"))),
          Eq(Select(Creation(), "phase"), Lit(Str("closed")))),
       TokenPaired())
  }

  function HasFinalizers(w: Expr): Expr { Has(Metadata(w), "finalizers") }
  function RetainedExpr(w: Expr): Expr { ExistsEq(Select(Metadata(w), "finalizers"), Str(RETENTION)) }

  /** The retention rule the operator requires at startup. */
  function RetentionKept(): Expr {
    Or(Or(Or(Or(Or(IsNot(Resource, LEASES), IsNot(Operation, UPDATE)),
                Not(HasFinalizers(OldObject))), Not(RetainedExpr(OldObject))),
          And(HasFinalizers(Object), RetainedExpr(Object))),
       SameValue(ACK))
  }

  function Annotated(w: Expr): Expr {
    And(Has(Metadata(w), "annotations"), In(Lit(Str(RELEASE)), Select(Metadata(w), "annotations")))
  }
  function Annotation(w: Expr): Expr { Select(Select(Metadata(w), "annotations"), RELEASE) }

  /** The annotation part of the chart's override, as it reads after the username test. */
  function ReleaseGranted(): Expr {
    And(Annotated(OldObject), Eq(Annotation(OldObject), Select(Metadata(OldObject), "uid")))
  }

  function QuarantineOverride(controlPlane: string): Expr {
    And(And(And(And(Is(Username, controlPlane), ReleaseGranted()),
                Has(OldObject, "status")), Has(Status(OldObject), "phase")),
        Eq(Select(Status(OldObject), "phase"), Lit(Str("Quarantined"))))
  }

  /** The retention rule the chart renders: the same, with the operator's quarantine override. */
  function RetentionKeptOrReleased(controlPlane: string): Expr {
    Or(RetentionKept(), QuarantineOverride(controlPlane))
  }

  function ReleaseGrantedByOperator(resource: string, controlPlane: string, user: string): Expr {
    Or(Or(Or(Or(Or(IsNot(Resource, resource), Not(In(Attr(Username), Lit(List([Str(controlPlane), Str(user)]))))),
                Is(Operation, DELETE)),
             Not(Has(Metadata(Object), "annotations"))),
          Not(In(Lit(Str(RELEASE)), Select(Metadata(Object), "annotations")))),
       And(And(Ne(OldObject, Lit(Null)), Annotated(OldObject)),
           Eq(Annotation(OldObject), Annotation(Object))))
  }

  // ---------------------------------------------------------------- the two expression sets

  function UnchangedFields(resource: string, fields: seq<string>, user: string): seq<Expr> {
    seq(|fields|, i requires 0 <= i < |fields| => UnchangedStatusField(resource, fields[i], user))
  }

  function LifecycleFields(resource: string, fields: seq<string>, user: string): seq<Expr> {
    seq(|fields|, i requires 0 <= i < |fields| => AuthorityCannotChangeStatusField(resource, fields[i], user))
  }

  function FieldExpressions(user: string): seq<Expr> {
    UnchangedFields(LEASES, LEASE_PROOF_FIELDS, user)
    + UnchangedFields(INSTANCES, INSTANCE_PROOF_FIELDS, user)
    + LifecycleFields(LEASES, LEASE_LIFECYCLE_FIELDS, user)
    + LifecycleFields(INSTANCES, INSTANCE_LIFECYCLE_FIELDS, user)
  }

  /** What both policies share: everything but the retention rule. */
  function CommonExpressions(user: string): seq<Expr> {
    [EvidenceOnlyByAuthority(user), AuthorityWritesStatusOnly(user)]
    + FieldExpressions(user)
    + [ConnectTokenReciprocal(), AbsenceUnchanged(user)]
  }

  function RequiredExpressions(user: string): seq<Expr> {
    CommonExpressions(user) + [RetentionKept()]
  }

  function ChartExpressions(user: string, controlPlane: string): seq<Expr> {
    CommonExpressions(user)
    + [RetentionKeptOrReleased(controlPlane),
       ReleaseGrantedByOperator(LEASES, controlPlane, user),
       ReleaseGrantedByOperator(INSTANCES, controlPlane, user)]
  }

  /** The operator's own construction of its required set: one push per protected field. */
  method BuildRequiredExpressions(user: string) returns (expressions: seq<Expr>)
    ensures expressions == RequiredExpressions(user)
  {
    hide EvidenceOnlyByAuthority, AuthorityWritesStatusOnly, UnchangedStatusField, AuthorityCannotChangeStatusField,
         ConnectTokenReciprocal, AbsenceUnchanged, RetentionKept;
    expressions := [EvidenceOnlyByAuthority(user)];
    expressions := expressions + [AuthorityWritesStatusOnly(user)];
    ghost var start := expressions;
    for i := 0 to |LEASE_PROOF_FIELDS|
      invariant expressions == start + UnchangedFields(LEASES, LEASE_PROOF_FIELDS, user)[..i]
    {
      expressions := expressions + [UnchangedStatusField(LEASES, LEASE_PROOF_FIELDS[i], user)];
    }
    start := expressions;
    for i := 0 to |INSTANCE_PROOF_FIELDS|
      invariant expressions == start + UnchangedFields(INSTANCES, INSTANCE_PROOF_FIELDS, user)[..i]
    {
      expressions := expressions + [UnchangedStatusField(INSTANCES, INSTANCE_PROOF_FIELDS[i], user)];
    }
    start := expressions;
    for i := 0 to |LEASE_LIFECYCLE_FIELDS|
      invariant expressions == start + LifecycleFields(LEASES, LEASE_LIFECYCLE_FIELDS, user)[..i]
    {
      expressions := expressions + [AuthorityCannotChangeStatusField(LEASES, LEASE_LIFECYCLE_FIELDS[i], user)];
    }
    start := expressions;
    for i := 0 to |INSTANCE_LIFECYCLE_FIELDS|
      invariant expressions == start + LifecycleFields(INSTANCES, INSTANCE_LIFECYCLE_FIELDS, user)[..i]
    {
      expressions := expressions + [AuthorityCannotChangeStatusField(INSTANCES, INSTANCE_LIFECYCLE_FIELDS[i], user)];
    }
    expressions := expressions + [ConnectTokenReciprocal()];
    expressions := expressions + [AbsenceUnchanged(user)];
    expressions := expressions + [RetentionKept()];
  }

  // ---------------------------------------------------------------- what objects carry

  /** One optional field of an object; `Broken` when the path to it is not made of objects. */
  datatype Slot = Absent | Present(v: Value) | Broken

  function Child(s: Slot, f: string): Slot {
    match s
    case Present(v) => if !v.Obj? then Broken else if f in v.fields then Present(v.fields[f]) else Absent
    case _ => s
  }

  function StatusField(o: Value, f: string): Slot { Child(Child(Present(o), "status"), f) }
  function MetadataField(o: Value, f: string): Slot { Child(Child(Present(o), "metadata"), f) }

  /** The object's AllocationAbsent conditions; none when it records no conditions. */
  function Absence(o: Value): Slot {
    match StatusField(o, "conditions")
    case Absent => Present(List([]))
    case Present(v) =>
      if v.List? && Keyed(v.items, "type")
      then Present(List(KeepEq(v.items, "type", Str("AllocationAbsent")))) else Broken
    case Broken => Broken
  }

  function Finalizers(o: Value): seq<Value> {
    var s := MetadataField(o, "finalizers");
    if s.Present? && s.v.List? then s.v.items else []
  }

  predicate Retained(o: Value) { Str(RETENTION) in Finalizers(o) }

  function ReleaseAnnotation(o: Value): Slot { Child(MetadataField(o, "annotations"), RELEASE) }
  function Uid(o: Value): Slot { MetadataField(o, "uid") }

  /** Connect-token creation and binding name one Secret, unless creation is closed. */
  predicate TokenReciprocal(o: Value) {
    var creation := StatusField(o, "connectTokenCreation");
    creation.Present? && Child(creation, "phase") != Present(Str("closed")) ==>
      PairedWith(creation, StatusField(o, "binding"))
  }

  predicate SameToken(identity: Slot, token: Slot, f: string) {
    Child(identity, f).Present? && Child(identity, f) == Child(token, f)
  }

  predicate TokensEqual(identity: Slot, token: Slot) {
    && SameToken(identity, token, "apiVersion") && SameToken(identity, token, "kind")
    && SameToken(identity, token, "name") && SameToken(identity, token, "uid")
    && Child(identity, "namespace") == Child(token, "namespace")
  }

  predicate PairedWith(creation: Slot, binding: Slot) {
    var identity, token := Child(creation, "identity"), Child(binding, "connectToken");
    && binding.Present?
    && identity.Present? == token.Present?
    && (identity.Present? ==> TokensEqual(identity, token))
  }

  predicate IsObject(s: Slot) { s.Present? && s.v.Obj? }
  predicate AbsentOrObject(s: Slot) { s == Absent || IsObject(s) }

  /** What the API server's schema guarantees of every stored or submitted object. */
  predicate Typed(o: Value) {
    && o.Obj?
    && Child(Present(o), "metadata").Present? && AbsentOrObject(Child(Present(o), "metadata"))
    && AbsentOrObject(Child(Present(o), "status"))
    && AbsentOrObject(MetadataField(o, "annotations"))
    && (MetadataField(o, "finalizers").Present? ==> MetadataField(o, "finalizers").v.List?)
    && AbsentOrObject(StatusField(o, "connectTokenCreation")) && AbsentOrObject(StatusField(o, "binding"))
    && Absence(o).Present?
  }

  // ---------------------------------------------------------------- meaning of each expression

  /** A left-nested disjunction holds exactly when one of its disjuncts does, errors notwithstanding. */
  lemma AnyOf4(a: Expr, b: Expr, c: Expr, d: Expr, r: Request)
    ensures Holds(Or(Or(Or(a, b), c), d), r) <==> Holds(a, r) || Holds(b, r) || Holds(c, r) || Holds(d, r)
  {
    assert Eval(Or(a, b), r) == OrElse(Eval(a, r), Eval(b, r));
    assert Eval(Or(Or(a, b), c), r) == OrElse(Eval(Or(a, b), r), Eval(c, r));
  }

  lemma AnyOf6(a: Expr, b: Expr, c: Expr, d: Expr, e: Expr, f: Expr, r: Request)
    ensures Holds(Or(Or(Or(Or(Or(a, b), c), d), e), f), r) <==>
            Holds(a, r) || Holds(b, r) || Holds(c, r) || Holds(d, r) || Holds(e, r) || Holds(f, r)
  {
    AnyOf4(a, b, c, d, r);
    assert Eval(Or(Or(Or(Or(a, b), c), d), e), r) == OrElse(Eval(Or(Or(Or(a, b), c), d), r), Eval(e, r));
  }

  lemma AllOf4(a: Expr, b: Expr, c: Expr, d: Expr, r: Request)
    ensures Holds(And(And(And(a, b), c), d), r) <==> Holds(a, r) && Holds(b, r) && Holds(c, r) && Holds(d, r)
  {
    assert Eval(And(a, b), r) == AndAlso(Eval(a, r), Eval(b, r));
    assert Eval(And(And(a, b), c), r) == AndAlso(Eval(And(a, b), r), Eval(c, r));
  }

  lemma AttributeMeaning(a: Attribute, s: string, r: Request)
    ensures Holds(Is(a, s), r) <==> ReadAttribute(r, a) == Val(Str(s))
    ensures Holds(IsNot(a, s), r) <==> ReadAttribute(r, a) != Error && ReadAttribute(r, a) != Val(Str(s))
  {
    assert Eval(Lit(Str(s)), r) == Val(Str(s));
    assert Eval(Attr(a), r) == ReadAttribute(r, a);
    assert Eval(IsNot(a, s), r) == Negate(Eval(Is(a, s), r));
  }

  /** Both halves of `has(w.status) ... has(w.status.f)` in one table. */
  lemma PathMeaning(w: Expr, f: string, r: Request, o: Value)
    requires Eval(w, r) == Val(o)
    ensures Eval(Missing(w, f), r) ==
            (match StatusField(o, f) case Absent => TRUE case Present(_) => FALSE case Broken => Error)
    ensures Holds(Carries(w, f), r) <==> StatusField(o, f).Present?
    ensures Eval(Select(Status(w), f), r) ==
            (match StatusField(o, f) case Present(v) => Val(v) case _ => Error)
    ensures Holds(Has(w, "status"), r) <==> Child(Present(o), "status").Present?
    ensures Holds(Has(Status(w), f), r) <==> StatusField(o, f).Present?
  {
    assert Eval(Has(w, "status"), r) == HasField(Val(o), "status");
    assert Eval(Status(w), r) == Field(Val(o), "status");
    assert Eval(Has(Status(w), f), r) == HasField(Eval(Status(w), r), f);
  }

  lemma SameValueMeaning(f: string, r: Request)
    ensures Holds(SameValue(f), r) <==>
            StatusField(r.oldObject, f).Present? && StatusField(r.newObject, f) == StatusField(r.oldObject, f)
  {
    PathMeaning(OldObject, f, r, r.oldObject);
    PathMeaning(Object, f, r, r.newObject);
    var same := Eq(Select(Status(Object), f), Select(Status(OldObject), f));
    AllOf4(Carries(OldObject, f), Has(Object, "status"), Has(Status(Object), f), same, r);
  }

  /** A write keeps the field: absent on creation, and otherwise what the stored object had. */
  predicate FieldKept(before: Value, after: Value, f: string) {
    if before == Null then StatusField(after, f) == Absent
    else StatusField(after, f) == StatusField(before, f) != Broken
  }

  lemma FieldUnchangedMeaning(f: string, r: Request)
    ensures Holds(FieldUnchanged(f), r) <==> FieldKept(r.oldObject, r.newObject, f)
  {
    PathMeaning(OldObject, f, r, r.oldObject);
    PathMeaning(Object, f, r, r.newObject);
    SameValueMeaning(f, r);
    var gone := And(Missing(OldObject, f), Missing(Object, f));
    var kept := Or(gone, SameValue(f));
    CondMeaning(Eq(OldObject, Lit(Null)), Missing(Object, f), kept, r, r.oldObject == Null) by {
      assert Eval(Lit(Null), r) == Val(Null);
    }
    assert Eval(gone, r) == AndAlso(Eval(Missing(OldObject, f), r), Eval(Missing(Object, f), r));
    assert Eval(kept, r) == OrElse(Eval(gone, r), Eval(SameValue(f), r));
    hide Eval;
  }

  lemma CondMeaning(test: Expr, yes: Expr, no: Expr, r: Request, decided: bool)
    requires Eval(test, r) == Val(Bool(decided))
    ensures Eval(Cond(test, yes, no), r) == if decided then Eval(yes, r) else Eval(no, r)
  {}

  lemma UnchangedStatusFieldMeaning(resource: string, f: string, user: string, r: Request)
    ensures Holds(UnchangedStatusField(resource, f, user), r) <==>
            r.resource != resource || r.user == user || r.operation == DELETE
            || FieldKept(r.oldObject, r.newObject, f)
  {
    AttributeMeaning(Resource, resource, r);
    AttributeMeaning(Username, user, r);
    AttributeMeaning(Operation, DELETE, r);
    FieldUnchangedMeaning(f, r);
    AnyOf4(IsNot(Resource, resource), Is(Username, user), Is(Operation, DELETE), FieldUnchanged(f), r);
  }

  lemma AuthorityCannotChangeMeaning(resource: string, f: string, user: string, r: Request)
    ensures Holds(AuthorityCannotChangeStatusField(resource, f, user), r) <==>
            r.resource != resource || r.user != user || r.operation == DELETE
            || FieldKept(r.oldObject, r.newObject, f)
  {
    AttributeMeaning(Resource, resource, r);
    AttributeMeaning(Username, user, r);
    AttributeMeaning(Operation, DELETE, r);
    FieldUnchangedMeaning(f, r);
    AnyOf4(IsNot(Resource, resource), IsNot(Username, user), Is(Operation, DELETE), FieldUnchanged(f), r);
  }

  lemma EvidenceOnlyByAuthorityMeaning(user: string, r: Request)
    ensures Holds(EvidenceOnlyByAuthority(user), r) <==> r.resource != EVIDENCE || r.user == user
  {
    AttributeMeaning(Resource, EVIDENCE, r);
    AttributeMeaning(Username, user, r);
  }

  lemma AuthorityWritesStatusOnlyMeaning(user: string, r: Request)
    ensures Holds(AuthorityWritesStatusOnly(user), r) <==>
            r.user != user || r.resource !in {LEASES, INSTANCES} || r.subResource == "status"
  {
    AttributeMeaning(Username, user, r);
    AttributeMeaning(SubResource, "status", r);
    var kinds := Lit(List([Str(LEASES), Str(INSTANCES)]));
    var listed := In(Attr(Resource), kinds);
    assert Eval(kinds, r) == Val(List([Str(LEASES), Str(INSTANCES)]));
    assert Eval(Attr(Resource), r) == Val(Str(r.resource));
    assert Eval(Not(listed), r) == Negate(Eval(listed, r));
    var head := Or(IsNot(Username, user), Not(listed));
    assert Eval(head, r) == OrElse(Eval(IsNot(Username, user), r), Eval(Not(listed), r));
  }

  lemma AbsenceConditionsMeaning(w: Expr, r: Request, o: Value)
    requires Eval(w, r) == Val(o) && StatusField(o, "conditions").Present?
    ensures Eval(AbsenceConditions(w), r) == (match Absence(o) case Present(v) => Val(v) case _ => Error)
  {
    hide Keyed, KeepEq;
    PathMeaning(w, "conditions", r, o);
  }

  lemma AbsenceSideMeaning(w: Expr, r: Request, o: Value, missing: Expr)
    requires Eval(w, r) == Val(o)
    requires Eval(missing, r) ==
             (match StatusField(o, "conditions") case Absent => TRUE case Present(_) => FALSE case Broken => Error)
    ensures Eval(Cond(missing, Lit(List([])), AbsenceConditions(w)), r) ==
            (match Absence(o) case Present(v) => Val(v) case _ => Error)
  {
    hide Keyed, KeepEq, AbsenceConditions;
    if StatusField(o, "conditions").Present? { AbsenceConditionsMeaning(w, r, o); }
    assert Eval(Lit(List([])), r) == Val(List([]));
    assert Eval(Cond(missing, Lit(List([])), AbsenceConditions(w)), r) ==
           (if Eval(missing, r) == TRUE then Val(List([]))
            else if Eval(missing, r) == FALSE then Eval(AbsenceConditions(w), r) else Error);
    hide Eval, StatusField;
  }

  predicate AbsenceKept(before: Value, after: Value) {
    Absence(after).Present? && Absence(after) == (if before == Null then Present(List([])) else Absence(before))
  }

  lemma OldAbsenceMissingMeaning(r: Request)
    ensures Eval(OldAbsenceMissing(), r) ==
            if r.oldObject == Null then TRUE
            else match StatusField(r.oldObject, "conditions")
                 case Absent => TRUE case Present(_) => FALSE case Broken => Error
  {
    var isNull := Eq(OldObject, Lit(Null));
    var noStatus, noConditions := Not(Has(OldObject, "status")), Not(Has(Status(OldObject), "conditions"));
    assert Eval(Lit(Null), r) == Val(Null);
    assert Eval(isNull, r) == Val(Bool(r.oldObject == Null));
    PathMeaning(OldObject, "conditions", r, r.oldObject);
    assert Eval(Missing(OldObject, "conditions"), r) == OrElse(Eval(noStatus, r), Eval(noConditions, r));
    assert Eval(Or(isNull, noStatus), r) == OrElse(Eval(isNull, r), Eval(noStatus, r));
  }

  lemma AbsenceEqMeaning(r: Request)
    ensures Holds(Eq(Cond(OldAbsenceMissing(), Lit(List([])), AbsenceConditions(OldObject)),
                     Cond(Missing(Object, "conditions"), Lit(List([])), AbsenceConditions(Object))), r)
            <==> AbsenceKept(r.oldObject, r.newObject)
  {
    PathMeaning(Object, "conditions", r, r.newObject);
    AbsenceSideMeaning(Object, r, r.newObject, Missing(Object, "conditions"));
    OldAbsenceMissingMeaning(r);
    var left := Cond(OldAbsenceMissing(), Lit(List([])), AbsenceConditions(OldObject));
    if r.oldObject == Null {
      assert Eval(Lit(List([])), r) == Val(List([]));
      assert Eval(left, r) == Val(List([]));
    } else {
      AbsenceSideMeaning(OldObject, r, r.oldObject, OldAbsenceMissing());
    }
  }

  lemma AbsenceUnchangedMeaning(user: string, r: Request)
    ensures Holds(AbsenceUnchanged(user), r) <==>
            r.resource != LEASES || r.user == user || r.operation == DELETE
            || AbsenceKept(r.oldObject, r.newObject)
  {
    AttributeMeaning(Resource, LEASES, r);
    AttributeMeaning(Username, user, r);
    AttributeMeaning(Operation, DELETE, r);
    AbsenceEqMeaning(r);
    AnyOf4(IsNot(Resource, LEASES), Is(Username, user), Is(Operation, DELETE),
           Eq(Cond(OldAbsenceMissing(), Lit(List([])), AbsenceConditions(OldObject)),
              Cond(Missing(Object, "conditions"), Lit(List([])), AbsenceConditions(Object))), r);
  }

  // ---- receipt retention

  lemma MetadataMeaning(w: Expr, f: string, r: Request, o: Value)
    requires Eval(w, r) == Val(o)
    ensures Eval(Has(Metadata(w), f), r) ==
            (if Child(Present(o), "metadata").Present? && Child(Present(o), "metadata").v.Obj?
             then Val(Bool(MetadataField(o, f).Present?)) else Error)
    ensures Eval(Select(Metadata(w), f), r) ==
            (match MetadataField(o, f) case Present(v) => Val(v) case _ => Error)
  {
    assert Eval(Metadata(w), r) == Field(Val(o), "metadata");
  }

  predicate HasMetadata(o: Value) { Child(Present(o), "metadata").Present? && Child(Present(o), "metadata").v.Obj? }

  /** Finalizers, where there are any, are a list: otherwise the rule fails to evaluate. */
  predicate FinalizersLegible(o: Value) {
    HasMetadata(o) && (MetadataField(o, "finalizers").Present? ==> MetadataField(o, "finalizers").v.List?)
  }

  lemma RetainedMeaning(w: Expr, r: Request, o: Value)
    requires Eval(w, r) == Val(o)
    ensures Holds(Not(HasFinalizers(w)), r) || Holds(Not(RetainedExpr(w)), r) <==> FinalizersLegible(o) && !Retained(o)
    ensures Holds(And(HasFinalizers(w), RetainedExpr(w)), r) <==> Retained(o)
  {
    hide Absence;
    MetadataMeaning(w, "finalizers", r, o);
    assert Eval(RetainedExpr(w), r) ==
           (var x := Eval(Select(Metadata(w), "finalizers"), r);
            if x.Val? && x.v.List? then Val(Bool(Str(RETENTION) in x.v.items)) else Error);
    assert Eval(Not(HasFinalizers(w)), r) == Negate(Eval(HasFinalizers(w), r));
  }

  predicate AckKept(before: Value, after: Value) {
    StatusField(before, ACK).Present? && StatusField(after, ACK) == StatusField(before, ACK)
  }

  /** An update drops retention only from a lease whose acknowledgement is on record and kept. */
  predicate RetentionRespected(r: Request) {
    r.resource == LEASES && r.operation == UPDATE && Retained(r.oldObject) ==>
      Retained(r.newObject) || AckKept(r.oldObject, r.newObject)
  }

  /** The rule on every request: besides, nothing is dropped from an object whose finalizers cannot be read. */
  predicate RetentionHolds(r: Request) {
    && RetentionRespected(r)
    && (r.resource == LEASES && r.operation == UPDATE && !FinalizersLegible(r.oldObject) ==>
          Retained(r.newObject) || AckKept(r.oldObject, r.newObject))
  }

  lemma RetentionKeptMeaning(r: Request)
    ensures Holds(RetentionKept(), r) <==> RetentionHolds(r)
    ensures (r.operation == UPDATE ==> Typed(r.oldObject)) ==> (RetentionHolds(r) <==> RetentionRespected(r))
  {
    AttributeMeaning(Resource, LEASES, r);
    AttributeMeaning(Operation, UPDATE, r);
    RetainedMeaning(OldObject, r, r.oldObject);
    RetainedMeaning(Object, r, r.newObject);
    SameValueMeaning(ACK, r);
    AnyOf6(IsNot(Resource, LEASES), IsNot(Operation, UPDATE), Not(HasFinalizers(OldObject)),
           Not(RetainedExpr(OldObject)), And(HasFinalizers(Object), RetainedExpr(Object)), SameValue(ACK), r);
    hide Eval, Retained, Absence, Child;
  }

  // ---- the operator's quarantine release

  /** The operator asked to release this object: its annotation repeats its own non-empty UID. */
  predicate ReleaseRequested(o: Value) {
    Uid(o).Present? && Uid(o).v.Str? && Uid(o).v.s != "" && ReleaseAnnotation(o) == Uid(o)
  }

  /** The object can be read and does not carry the annotation. */
  predicate Unannotated(o: Value) {
    && HasMetadata(o)
    && match MetadataField(o, "annotations")
       case Absent => true
       case Present(v) => (v.Obj? && RELEASE !in v.fields) || (v.List? && Str(RELEASE) !in v.items)
       case Broken => false
  }

  lemma AnnotationMeaning(w: Expr, r: Request, o: Value)
    requires Eval(w, r) == Val(o)
    ensures Eval(Annotation(w), r) == (match ReleaseAnnotation(o) case Present(v) => Val(v) case _ => Error)
    ensures ReleaseAnnotation(o).Present? ==>
              && Holds(Annotated(w), r)
              && !Holds(Not(Has(Metadata(w), "annotations")), r)
              && !Holds(Not(In(Lit(Str(RELEASE)), Select(Metadata(w), "annotations"))), r)
    ensures Unannotated(o) <==>
            || Holds(Not(Has(Metadata(w), "annotations")), r)
            || Holds(Not(In(Lit(Str(RELEASE)), Select(Metadata(w), "annotations"))), r)
    ensures Typed(o) && !ReleaseAnnotation(o).Present? ==> Unannotated(o)
  {
    hide Absence;
    MetadataMeaning(w, "annotations", r, o);
    var range := Select(Metadata(w), "annotations");
    assert Eval(Lit(Str(RELEASE)), r) == Val(Str(RELEASE));
    assert Eval(In(Lit(Str(RELEASE)), range), r) == Contains(Val(Str(RELEASE)), Eval(range, r));
    assert Eval(Not(Has(Metadata(w), "annotations")), r) == Negate(Eval(Has(Metadata(w), "annotations"), r));
  }

  lemma ReleaseGrantedMeaning(r: Request)
    ensures Holds(ReleaseGranted(), r) <==>
            ReleaseAnnotation(r.oldObject).Present? && ReleaseAnnotation(r.oldObject) == Uid(r.oldObject)
  {
    AnnotationMeaning(OldObject, r, r.oldObject);
    MetadataMeaning(OldObject, "uid", r, r.oldObject);
    var same := Eq(Annotation(OldObject), Select(Metadata(OldObject), "uid"));
    assert Eval(ReleaseGranted(), r) == AndAlso(Eval(Annotated(OldObject), r), Eval(same, r));
  }

  /** The policy's annotation test and the controller's own test disagree only on an empty UID
      that an empty annotation repeats. A UID, where there is one, is a string. */
  lemma ReleaseTestsAgree(r: Request)
    requires Uid(r.oldObject).Present? ==> Uid(r.oldObject).v.Str?
    ensures (Holds(ReleaseGranted(), r) <==> ReleaseRequested(r.oldObject)) <==>
            !(Uid(r.oldObject) == Present(Str("")) && ReleaseAnnotation(r.oldObject) == Present(Str("")))
  {
    ReleaseGrantedMeaning(r);
  }

  predicate QuarantineReleased(o: Value) {
    && ReleaseAnnotation(o).Present? && ReleaseAnnotation(o) == Uid(o)
    && StatusField(o, "phase") == Present(Str("Quarantined"))
  }

  lemma QuarantineOverrideMeaning(controlPlane: string, r: Request)
    ensures Holds(QuarantineOverride(controlPlane), r) <==>
            r.user == controlPlane && QuarantineReleased(r.oldObject)
  {
    AttributeMeaning(Username, controlPlane, r);
    ReleaseGrantedMeaning(r);
    PathMeaning(OldObject, "phase", r, r.oldObject);
    assert Eval(Lit(Str("Quarantined")), r) == Val(Str("Quarantined"));
    var head := And(Is(Username, controlPlane), ReleaseGranted());
    assert Eval(head, r) == AndAlso(Eval(Is(Username, controlPlane), r), Eval(ReleaseGranted(), r));
    AllOf4(head, Has(OldObject, "status"), Has(Status(OldObject), "phase"),
           Eq(Select(Status(OldObject), "phase"), Lit(Str("Quarantined"))), r);
  }

  /** The chart's rule: the same, or the control plane acting on an operator's release. */
  predicate RetentionRespectedOrReleased(controlPlane: string, r: Request) {
    RetentionRespected(r) || (r.user == controlPlane && QuarantineReleased(r.oldObject))
  }

  lemma RetentionKeptOrReleasedMeaning(controlPlane: string, r: Request)
    ensures Holds(RetentionKeptOrReleased(controlPlane), r) <==>
            RetentionHolds(r) || (r.user == controlPlane && QuarantineReleased(r.oldObject))
    ensures Holds(RetentionKeptOrReleased(controlPlane), r) ==> RetentionRespectedOrReleased(controlPlane, r)
    ensures (r.operation == UPDATE ==> Typed(r.oldObject)) && RetentionRespectedOrReleased(controlPlane, r) ==>
              Holds(RetentionKeptOrReleased(controlPlane), r)
  {
    QuarantineOverrideMeaning(controlPlane, r);
    RetentionKeptMeaning(r);
    assert Eval(RetentionKeptOrReleased(controlPlane), r) ==
           OrElse(Eval(RetentionKept(), r), Eval(QuarantineOverride(controlPlane), r));
    hide Eval, Typed, RetentionRespected, FinalizersLegible;
  }

  lemma SameAnnotationMeaning(r: Request)
    ensures Holds(And(And(Ne(OldObject, Lit(Null)), Annotated(OldObject)),
                      Eq(Annotation(OldObject), Annotation(Object))), r) <==>
            && r.oldObject != Null && ReleaseAnnotation(r.oldObject).Present?
            && ReleaseAnnotation(r.oldObject) == ReleaseAnnotation(r.newObject)
  {
    AnnotationMeaning(OldObject, r, r.oldObject);
    AnnotationMeaning(Object, r, r.newObject);
    var present := And(Ne(OldObject, Lit(Null)), Annotated(OldObject));
    assert Eval(Lit(Null), r) == Val(Null);
    assert Eval(Ne(OldObject, Lit(Null)), r) == Negate(Eval(Eq(OldObject, Lit(Null)), r));
    assert Eval(present, r) == AndAlso(Eval(Ne(OldObject, Lit(Null)), r), Eval(Annotated(OldObject), r));
    var same := Eq(Annotation(OldObject), Annotation(Object));
    assert Eval(And(present, same), r) == AndAlso(Eval(present, r), Eval(same, r));
  }

  predicate ReleaseRuleApplies(resource: string, controlPlane: string, user: string, r: Request) {
    r.resource == resource && r.user in {controlPlane, user} && r.operation != DELETE
  }

  /** Neither Kobe identity introduces or changes a release annotation. */
  predicate ReleaseLeftToOperator(resource: string, controlPlane: string, user: string, r: Request) {
    ReleaseRuleApplies(resource, controlPlane, user, r) && ReleaseAnnotation(r.newObject).Present? ==>
      r.oldObject != Null && ReleaseAnnotation(r.oldObject) == ReleaseAnnotation(r.newObject)
  }

  lemma ReleaseGrantedByOperatorMeaning(resource: string, controlPlane: string, user: string, r: Request)
    ensures Holds(ReleaseGrantedByOperator(resource, controlPlane, user), r) <==>
            && ReleaseLeftToOperator(resource, controlPlane, user, r)
            && (ReleaseRuleApplies(resource, controlPlane, user, r) && !ReleaseAnnotation(r.newObject).Present? ==>
                  Unannotated(r.newObject))
    ensures (r.operation != DELETE ==> Typed(r.newObject)) && ReleaseLeftToOperator(resource, controlPlane, user, r) ==>
              Holds(ReleaseGrantedByOperator(resource, controlPlane, user), r)
  {
    AttributeMeaning(Resource, resource, r);
    AttributeMeaning(Operation, DELETE, r);
    AnnotationMeaning(Object, r, r.newObject);
    KobeIdentityMeaning(controlPlane, user, r);
    SameAnnotationMeaning(r);
    var kobe := In(Attr(Username), Lit(List([Str(controlPlane), Str(user)])));
    var present := And(Ne(OldObject, Lit(Null)), Annotated(OldObject));
    var same := Eq(Annotation(OldObject), Annotation(Object));
    AnyOf6(IsNot(Resource, resource), Not(kobe), Is(Operation, DELETE), Not(Has(Metadata(Object), "annotations")),
           Not(In(Lit(Str(RELEASE)), Select(Metadata(Object), "annotations"))), And(present, same), r);
    hide Eval, Typed, ReleaseAnnotation, Unannotated;
  }

  lemma KobeIdentityMeaning(controlPlane: string, user: string, r: Request)
    ensures Holds(Not(In(Attr(Username), Lit(List([Str(controlPlane), Str(user)])))), r)
        <==> r.user !in {controlPlane, user}
  {
    var names := Lit(List([Str(controlPlane), Str(user)]));
    var kobe := In(Attr(Username), names);
    assert Eval(names, r) == Val(List([Str(controlPlane), Str(user)]));
    assert Eval(Attr(Username), r) == Val(Str(r.user));
    assert Eval(Not(kobe), r) == Negate(Eval(kobe, r));
  }

  // ---- connect-token reciprocity

  function AsOutcome(s: Slot): Outcome { match s case Present(v) => Val(v) case _ => Error }

  lemma ChildMeaning(e: Expr, s: Slot, f: string, r: Request)
    requires Eval(e, r) == AsOutcome(s)
    ensures Eval(Select(e, f), r) == AsOutcome(Child(s, f))
    ensures Eval(Has(e, f), r) == (if s.Present? && s.v.Obj? then Val(Bool(Child(s, f).Present?)) else Error)
  {}

  lemma SameTokenFieldMeaning(f: string, r: Request, identity: Slot, token: Slot)
    requires Eval(Identity(), r) == AsOutcome(identity)
    requires Eval(BoundToken(), r) == AsOutcome(token)
    ensures Holds(SameTokenField(f), r) <==> SameToken(identity, token, f)
  {
    ChildMeaning(Identity(), identity, f, r);
    ChildMeaning(BoundToken(), token, f, r);
  }

  lemma TokenIdentityMeaning(r: Request, identity: Slot, token: Slot)
    requires Eval(Identity(), r) == AsOutcome(identity)
    requires Eval(BoundToken(), r) == AsOutcome(token)
    ensures Holds(TokenIdentityMatches(), r) <==> TokensEqual(identity, token)
  {
    SameTokenFieldMeaning("apiVersion", r, identity, token);
    SameTokenFieldMeaning("kind", r, identity, token);
    SameTokenFieldMeaning("name", r, identity, token);
    SameTokenFieldMeaning("uid", r, identity, token);
    SameTokenFieldMeaning("namespace", r, identity, token);
    ChildMeaning(Identity(), identity, "namespace", r);
    ChildMeaning(BoundToken(), token, "namespace", r);
    var ids := And(And(And(SameTokenField("apiVersion"), SameTokenField("kind")), SameTokenField("name")),
                   SameTokenField("uid"));
    AllOf4(SameTokenField("apiVersion"), SameTokenField("kind"), SameTokenField("name"), SameTokenField("uid"), r);
    var hasNs, boundNs := Has(Identity(), "namespace"), Has(BoundToken(), "namespace");
    assert Eval(And(ids, Eq(hasNs, boundNs)), r) == AndAlso(Eval(ids, r), Eval(Eq(hasNs, boundNs), r));
    assert Eval(Or(Not(hasNs), SameTokenField("namespace")), r) ==
           OrElse(Eval(Not(hasNs), r), Eval(SameTokenField("namespace"), r));
    assert Eval(Not(hasNs), r) == Negate(Eval(hasNs, r));
  }

  lemma TokenPairedMeaning(r: Request, creation: Slot, binding: Slot)
    requires Eval(Creation(), r) == AsOutcome(creation)
    requires Eval(Select(Status(Object), "binding"), r) == AsOutcome(binding)
    requires Holds(Has(Status(Object), "binding"), r) <==> binding.Present?
    ensures Holds(TokenPaired(), r) <==>
            IsObject(creation) && IsObject(binding) && PairedWith(creation, binding)
  {
    var hasId, hasToken := Has(Creation(), "identity"), Has(Select(Status(Object), "binding"), "connectToken");
    var bound, matches := Has(Status(Object), "binding"), TokenIdentityMatches();
    ChildMeaning(Creation(), creation, "identity", r);
    ChildMeaning(Select(Status(Object), "binding"), binding, "connectToken", r);
    TokenIdentityMeaning(r, Child(creation, "identity"), Child(binding, "connectToken"));
    var paired := And(bound, Eq(hasId, hasToken));
    var matched := Or(Not(hasId), matches);
    assert Eval(Not(hasId), r) == Negate(Eval(hasId, r));
    assert Eval(Eq(hasId, hasToken), r) ==
           (if Eval(hasId, r).Val? && Eval(hasToken, r).Val? then Val(Bool(Eval(hasId, r).v == Eval(hasToken, r).v))
               else Error);
    assert Eval(paired, r) == AndAlso(Eval(bound, r), Eval(Eq(hasId, hasToken), r));
    assert Eval(matched, r) == OrElse(Eval(Not(hasId), r), Eval(matches, r));
    assert Eval(TokenPaired(), r) == AndAlso(Eval(paired, r), Eval(matched, r));
    hide Eval, TokensEqual;
  }

  /** The reciprocity rule up to its last disjunct. */
  lemma ReciprocalDisjuncts(r: Request)
    ensures var creation := StatusField(r.newObject, "connectTokenCreation");
            Holds(ConnectTokenReciprocal(), r) <==>
            || r.resource != LEASES || r.operation == DELETE
            || creation == Absent || Child(creation, "phase") == Present(Str("closed")) || Holds(TokenPaired(), r)
  {
    var creation := StatusField(r.newObject, "connectTokenCreation");
    AttributeMeaning(Resource, LEASES, r);
    AttributeMeaning(Operation, DELETE, r);
    PathMeaning(Object, "connectTokenCreation", r, r.newObject);
    ChildMeaning(Creation(), creation, "phase", r);
    assert Eval(Lit(Str("closed")), r) == Val(Str("closed"));
    var noStatus, noCreation := Not(Has(Object, "status")), Not(Has(Status(Object), "connectTokenCreation"));
    var closed := Eq(Select(Creation(), "phase"), Lit(Str("closed")));
    assert Eval(Missing(Object, "connectTokenCreation"), r) == OrElse(Eval(noStatus, r), Eval(noCreation, r));
    assert Holds(closed, r) <==> Child(creation, "phase") == Present(Str("closed"));
    AnyOf6(IsNot(Resource, LEASES), Is(Operation, DELETE), noStatus, noCreation, closed, TokenPaired(), r);
    hide Eval;
  }

  predicate TokensPaired(r: Request) {
    r.resource == LEASES && r.operation != DELETE ==> TokenReciprocal(r.newObject)
  }

  /** Where the rule compares creation with binding, both are objects: otherwise it fails to evaluate. */
  predicate TokensLegible(r: Request) {
    var creation, binding := StatusField(r.newObject, "connectTokenCreation"), StatusField(r.newObject, "binding");
    r.resource == LEASES && r.operation != DELETE
    && creation != Absent && Child(creation, "phase") != Present(Str("closed")) ==>
      IsObject(creation) && IsObject(binding)
  }

  lemma ConnectTokenReciprocalMeaning(r: Request)
    ensures Holds(ConnectTokenReciprocal(), r) <==> TokensPaired(r) && TokensLegible(r)
    ensures (r.operation != DELETE ==> Typed(r.newObject)) && TokensPaired(r) ==> Holds(ConnectTokenReciprocal(), r)
  {
    var creation, binding := StatusField(r.newObject, "connectTokenCreation"), StatusField(r.newObject, "binding");
    PathMeaning(Object, "connectTokenCreation", r, r.newObject);
    PathMeaning(Object, "binding", r, r.newObject);
    ReciprocalDisjuncts(r);
    TokenPairedMeaning(r, creation, binding);
    hide Eval, TokensEqual, Absence;
  }
}
