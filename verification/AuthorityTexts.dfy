/** Both authority expression sets lie in the fragment the operator spells, over its configured names. */
module AuthorityTexts {
  import opened Common
  import opened Cel
  import opened Text
  import opened ExpressionText
  import opened ExpressionSource
  import opened AuthorityExpressions

  lemma StatusWords()
    ensures Identifier("status") && Identifier("metadata") && Identifier("conditions") && Identifier("type")
  {}

  lemma TokenWords()
    ensures Identifier("phase") && Identifier("identity") && Identifier("binding") && Identifier("connectToken")
    ensures Identifier("connectTokenCreation")
  {}

  lemma ReferenceWords()
    ensures Identifier("apiVersion") && Identifier("kind") && Identifier("name") && Identifier("uid")
    ensures Identifier("namespace")
  {}

  lemma MetadataWords()
    ensures Identifier("finalizers") && Identifier("annotations")
  {}

  lemma FixedLiterals()
    ensures LiteralText(LEASES) && LiteralText(INSTANCES) && LiteralText(EVIDENCE)
    ensures LiteralText(UPDATE) && LiteralText(DELETE) && LiteralText("status") && LiteralText("closed")
  {
    hide LiteralText;
    ResourceLiterals();
    VerbLiterals();
  }

  lemma ResourceLiterals()
    ensures LiteralText(LEASES) && LiteralText(INSTANCES) && LiteralText(EVIDENCE)
  {
    assert LiteralText(LEASES);
    assert LiteralText(INSTANCES);
    assert LiteralText(EVIDENCE);
  }

  lemma VerbLiterals()
    ensures LiteralText(UPDATE) && LiteralText(DELETE) && LiteralText("status") && LiteralText("closed")
  {}

  lemma LongLiterals()
    ensures LiteralText(RETENTION) && LiteralText(RELEASE)
    ensures LiteralText("AllocationAbsent") && LiteralText("Quarantined")
  {
    hide LiteralText;
    RetentionLiteral();
    ReleaseLiteral();
    ShortLiterals();
  }

  lemma LiteralAppend(a: string, b: string)
    requires LiteralText(a) && LiteralText(b)
    ensures LiteralText(a + b)
  {}

  lemma DomainLiteral()
    ensures LiteralText(KOBE_DOMAIN)
  {}

  lemma RetentionLiteral()
    ensures LiteralText(RETENTION)
  {
    assert LiteralText("teardown-receipt-retention");
    hide LiteralText;
    DomainLiteral();
    LiteralAppend(KOBE_DOMAIN, "teardown-receipt-retention");
  }

  lemma ReleaseLiteral()
    ensures LiteralText(RELEASE)
  {
    assert LiteralText("release-quarantine");
    hide LiteralText;
    DomainLiteral();
    LiteralAppend(KOBE_DOMAIN, "release-quarantine");
  }

  lemma ShortLiterals()
    ensures LiteralText("AllocationAbsent") && LiteralText("Quarantined")
  {}

  predicate Side(w: Expr) { w == Object || w == OldObject }

  lemma PairWrites(a: Expr, b: Expr, ns: set<string>)
    requires Writes(a, ns) && Writes(b, ns)
    ensures Writes(Or(a, b), ns) && Writes(And(a, b), ns) && Writes(Not(a), ns)
    ensures (Atomic(a) || a.Cond?) && (Atomic(b) || b.Cond?) && !a.Attr? ==> Writes(Eq(a, b), ns)
  {}

  lemma CondWrites(t: Expr, a: Expr, b: Expr, ns: set<string>)
    requires Writes(t, ns) && Writes(a, ns) && Writes(b, ns) && !t.Cond? && !a.Cond? && !b.Cond?
    ensures Writes(Cond(t, a, b), ns)
  {}

  /** `oldObject == null` */
  lemma NullWrites(ns: set<string>)
    ensures Writes(Eq(OldObject, Lit(Null)), ns) && Writes(Ne(OldObject, Lit(Null)), ns)
  {
    assert Writes(OldObject, ns) && Writes(Lit(Null), ns);
    assert Writes(Eq(OldObject, Lit(Null)), ns);
  }

  lemma IsWrites(a: Attribute, s: string, ns: set<string>)
    requires if Named(Attr(a)) then s in ns else LiteralText(s)
    ensures Writes(Is(a, s), ns) && Writes(IsNot(a, s), ns)
  {
    assert Writes(Lit(Str(s)), ns) || Named(Attr(a));
    assert Writes(Attr(a), ns);
    assert Writes(Is(a, s), ns);
  }

  lemma FieldWrites(w: Expr, f: string, ns: set<string>)
    requires Side(w) && Identifier(f)
    ensures Writes(Has(w, "status"), ns) && Writes(Has(Status(w), f), ns) && Writes(Select(Status(w), f), ns)
    ensures Writes(Missing(w, f), ns) && Writes(Carries(w, f), ns) && Rooted(Select(Status(w), f))
  {
    StatusWords();
    hide Identifier;
    assert Rooted(w) && Writes(w, ns);
    assert Rooted(Status(w)) && Writes(Status(w), ns);
    assert Writes(Not(Has(w, "status")), ns) && Writes(Not(Has(Status(w), f)), ns);
  }

  lemma SameValueWrites(f: string, ns: set<string>)
    requires Identifier(f)
    ensures Writes(SameValue(f), ns)
  {
    hide Identifier;
    FieldWrites(Object, f, ns);
    FieldWrites(OldObject, f, ns);
    var same := Eq(Select(Status(Object), f), Select(Status(OldObject), f));
    assert Writes(same, ns) && Writes(Has(Object, "status"), ns) && Writes(Has(Status(Object), f), ns);
    hide Writes, Carries;
    var x := And(Carries(OldObject, f), Has(Object, "status"));
    PairWrites(Carries(OldObject, f), Has(Object, "status"), ns);
    PairWrites(x, Has(Status(Object), f), ns);
    PairWrites(And(x, Has(Status(Object), f)), same, ns);
  }

  lemma FieldUnchangedWrites(f: string, ns: set<string>)
    requires Identifier(f)
    ensures Writes(FieldUnchanged(f), ns)
  {
    hide Identifier;
    FieldWrites(Object, f, ns);
    FieldWrites(OldObject, f, ns);
    SameValueWrites(f, ns);
    NullWrites(ns);
    assert Missing(Object, f).Or?;
    hide Missing, SameValue, Writes;
    var gone := And(Missing(OldObject, f), Missing(Object, f));
    PairWrites(Missing(OldObject, f), Missing(Object, f), ns);
    PairWrites(gone, SameValue(f), ns);
    CondWrites(Eq(OldObject, Lit(Null)), Missing(Object, f), Or(gone, SameValue(f)), ns);
  }

  /** A left-nested disjunction of written parts is written. */
  lemma Any4Writes(a: Expr, b: Expr, c: Expr, d: Expr, ns: set<string>)
    requires Writes(a, ns) && Writes(b, ns) && Writes(c, ns) && Writes(d, ns)
    ensures Writes(Or(Or(a, b), c), ns) && Writes(Or(Or(Or(a, b), c), d), ns)
  {
    assert Writes(Or(a, b), ns);
    assert Writes(Or(Or(a, b), c), ns);
  }

  lemma All4Writes(a: Expr, b: Expr, c: Expr, d: Expr, ns: set<string>)
    requires Writes(a, ns) && Writes(b, ns) && Writes(c, ns) && Writes(d, ns)
    ensures Writes(And(And(a, b), c), ns) && Writes(And(And(And(a, b), c), d), ns)
  {
    assert Writes(And(a, b), ns);
    assert Writes(And(And(a, b), c), ns);
  }

  lemma FieldRulesWrite(resource: string, f: string, user: string, ns: set<string>)
    requires LiteralText(resource) && Identifier(f) && user in ns
    ensures Writes(UnchangedStatusField(resource, f, user), ns)
    ensures Writes(AuthorityCannotChangeStatusField(resource, f, user), ns)
  {
    FixedLiterals();
    hide Identifier, LiteralText, Writes;
    IsWrites(Resource, resource, ns);
    IsWrites(Username, user, ns);
    IsWrites(Operation, DELETE, ns);
    FieldUnchangedWrites(f, ns);
    Any4Writes(IsNot(Resource, resource), Is(Username, user), Is(Operation, DELETE), FieldUnchanged(f), ns);
    Any4Writes(IsNot(Resource, resource), IsNot(Username, user), Is(Operation, DELETE), FieldUnchanged(f), ns);
  }

  lemma FirstRulesWrite(user: string, ns: set<string>)
    requires user in ns
    ensures Writes(EvidenceOnlyByAuthority(user), ns) && Writes(AuthorityWritesStatusOnly(user), ns)
  {
    FixedLiterals();
    hide LiteralText, Writes;
    IsWrites(Resource, EVIDENCE, ns);
    IsWrites(Username, user, ns);
    IsWrites(SubResource, "status", ns);
    ListWrites(Resource, LEASES, INSTANCES, ns);
    hide Is, IsNot;
    var other := Not(In(Attr(Resource), Lit(List([Str(LEASES), Str(INSTANCES)]))));
    PairWrites(IsNot(Resource, EVIDENCE), Is(Username, user), ns);
    PairWrites(IsNot(Username, user), other, ns);
    PairWrites(Or(IsNot(Username, user), other), Is(SubResource, "status"), ns);
  }

  lemma AbsenceSideWrites(w: Expr, missing: Expr, ns: set<string>)
    requires Side(w) && Writes(missing, ns) && !missing.Cond?
    ensures Writes(Cond(missing, Lit(List([])), AbsenceConditions(w)), ns)
  {
    StatusWords();
    LongLiterals();
    hide Identifier, LiteralText;
    FieldWrites(w, "conditions", ns);
    assert Writes(AbsenceConditions(w), ns) && Writes(Lit(List([])), ns);
  }

  lemma OldAbsenceWrites(ns: set<string>)
    ensures Writes(OldAbsenceMissing(), ns)
  {
    StatusWords();
    hide Identifier, Writes;
    FieldWrites(OldObject, "conditions", ns);
    NullWrites(ns);
    var noStatus, noConditions := Not(Has(OldObject, "status")), Not(Has(Status(OldObject), "conditions"));
    PairWrites(Has(OldObject, "status"), Has(Status(OldObject), "conditions"), ns);
    PairWrites(Has(Status(OldObject), "conditions"), Has(OldObject, "status"), ns);
    PairWrites(Eq(OldObject, Lit(Null)), noStatus, ns);
    PairWrites(Or(Eq(OldObject, Lit(Null)), noStatus), noConditions, ns);
  }

  lemma AbsenceWrites(user: string, ns: set<string>)
    requires user in ns
    ensures Writes(AbsenceUnchanged(user), ns)
  {
    FixedLiterals();
    StatusWords();
    hide Identifier, LiteralText, Writes;
    IsWrites(Resource, LEASES, ns);
    IsWrites(Username, user, ns);
    IsWrites(Operation, DELETE, ns);
    OldAbsenceWrites(ns);
    FieldWrites(Object, "conditions", ns);
    AbsenceSideWrites(OldObject, OldAbsenceMissing(), ns);
    AbsenceSideWrites(Object, Missing(Object, "conditions"), ns);
    var left := Cond(OldAbsenceMissing(), Lit(List([])), AbsenceConditions(OldObject));
    var right := Cond(Missing(Object, "conditions"), Lit(List([])), AbsenceConditions(Object));
    hide OldAbsenceMissing, Missing, AbsenceConditions, Is, IsNot;
    PairWrites(left, right, ns);
    Any4Writes(IsNot(Resource, LEASES), Is(Username, user), Is(Operation, DELETE), Eq(left, right), ns);
  }

  lemma TokenPathsWrite(ns: set<string>)
    ensures Writes(Creation(), ns) && Rooted(Creation())
    ensures Writes(Identity(), ns) && Rooted(Identity()) && Writes(BoundToken(), ns) && Rooted(BoundToken())
    ensures Writes(Select(Status(Object), "binding"), ns)
  {
    TokenWords();
    hide Identifier;
    FieldWrites(Object, "connectTokenCreation", ns);
    FieldWrites(Object, "binding", ns);
    assert Writes(Identity(), ns) && Writes(BoundToken(), ns);
  }

  lemma TokenFieldWrites(f: string, ns: set<string>)
    requires Identifier(f)
    ensures Writes(SameTokenField(f), ns)
    ensures Writes(Has(Identity(), f), ns) && Writes(Has(BoundToken(), f), ns)
  {
    hide Identifier;
    TokenPathsWrite(ns);
    hide Identity, BoundToken;
    assert Writes(Select(Identity(), f), ns) && Writes(Select(BoundToken(), f), ns);
  }

  lemma TokenIdentityWrites(ns: set<string>)
    ensures Writes(TokenIdentityMatches(), ns)
  {
    ReferenceWords();
    hide Identifier;
    TokenFieldWrites("apiVersion", ns);
    TokenFieldWrites("kind", ns);
    TokenFieldWrites("name", ns);
    TokenFieldWrites("uid", ns);
    TokenFieldWrites("namespace", ns);
    hide SameTokenField, Identity, BoundToken, Writes;
    All4Writes(SameTokenField("apiVersion"), SameTokenField("kind"), SameTokenField("name"), SameTokenField("uid"), ns);
    var ids := And(And(And(SameTokenField("apiVersion"), SameTokenField("kind")), SameTokenField("name")),
                   SameTokenField("uid"));
    var has, bound := Has(Identity(), "namespace"), Has(BoundToken(), "namespace");
    PairWrites(has, bound, ns);
    PairWrites(ids, Eq(has, bound), ns);
    PairWrites(Not(has), SameTokenField("namespace"), ns);
    PairWrites(And(ids, Eq(has, bound)), Or(Not(has), SameTokenField("namespace")), ns);
  }

  lemma TokenPairedWrites(ns: set<string>)
    ensures Writes(TokenPaired(), ns)
  {
    TokenWords();
    hide Identifier;
    TokenPathsWrite(ns);
    FieldWrites(Object, "binding", ns);
    TokenIdentityWrites(ns);
    hide Creation, TokenIdentityMatches;
    var has, bound := Has(Creation(), "identity"), Has(Select(Status(Object), "binding"), "connectToken");
    assert Writes(has, ns) && Writes(bound, ns);
    assert Writes(Eq(has, bound), ns) && Writes(Not(has), ns);
    assert Writes(And(Has(Status(Object), "binding"), Eq(has, bound)), ns);
    assert Writes(Or(Not(has), TokenIdentityMatches()), ns);
  }

  lemma ClosedWrites(ns: set<string>)
    ensures Writes(Eq(Select(Creation(), "phase"), Lit(Str("closed"))), ns)
  {
    FixedLiterals();
    TokenWords();
    hide Identifier, LiteralText;
    TokenPathsWrite(ns);
    hide Creation;
    assert Writes(Select(Creation(), "phase"), ns) && Writes(Lit(Str("closed")), ns);
  }

  lemma ReciprocalWrites(ns: set<string>)
    ensures Writes(ConnectTokenReciprocal(), ns)
  {
    FixedLiterals();
    TokenWords();
    hide Identifier, LiteralText, Writes;
    IsWrites(Resource, LEASES, ns);
    IsWrites(Operation, DELETE, ns);
    FieldWrites(Object, "connectTokenCreation", ns);
    ClosedWrites(ns);
    TokenPairedWrites(ns);
    hide TokenPaired, Is, IsNot, Creation;
    var noStatus, noCreation := Not(Has(Object, "status")), Not(Has(Status(Object), "connectTokenCreation"));
    var closed := Eq(Select(Creation(), "phase"), Lit(Str("closed")));
    PairWrites(Has(Object, "status"), closed, ns);
    PairWrites(Has(Status(Object), "connectTokenCreation"), closed, ns);
    Any4Writes(IsNot(Resource, LEASES), Is(Operation, DELETE), noStatus, noCreation, ns);
    Any4Writes(Or(Or(IsNot(Resource, LEASES), Is(Operation, DELETE)), noStatus), noCreation, closed, TokenPaired(), ns);
  }

  lemma RetainedWrites(w: Expr, ns: set<string>)
    requires Side(w)
    ensures Writes(HasFinalizers(w), ns) && Writes(RetainedExpr(w), ns)
  {
    StatusWords();
    MetadataWords();
    LongLiterals();
    hide Identifier, LiteralText;
    assert Rooted(Metadata(w)) && Writes(Metadata(w), ns);
    assert Rooted(Select(Metadata(w), "finalizers")) && Writes(Select(Metadata(w), "finalizers"), ns);
  }

  lemma RetentionWrites(ns: set<string>)
    ensures Writes(RetentionKept(), ns)
  {
    FixedLiterals();
    assert Identifier(ACK);
    hide Identifier, LiteralText;
    IsWrites(Resource, LEASES, ns);
    IsWrites(Operation, UPDATE, ns);
    RetainedWrites(OldObject, ns);
    RetainedWrites(Object, ns);
    SameValueWrites(ACK, ns);
    hide HasFinalizers, RetainedExpr, SameValue, Is, IsNot, Writes;
    var a, b := IsNot(Resource, LEASES), IsNot(Operation, UPDATE);
    var c, d := Not(HasFinalizers(OldObject)), Not(RetainedExpr(OldObject));
    var kept := And(HasFinalizers(Object), RetainedExpr(Object));
    PairWrites(HasFinalizers(OldObject), RetainedExpr(OldObject), ns);
    PairWrites(RetainedExpr(OldObject), HasFinalizers(OldObject), ns);
    PairWrites(HasFinalizers(Object), RetainedExpr(Object), ns);
    Any4Writes(a, b, c, d, ns);
    Any4Writes(Or(Or(a, b), c), d, kept, SameValue(ACK), ns);
  }

  lemma ReceiptWords()
    ensures Identifier("teardownReceipt") && Identifier("teardownEvidence") && Identifier("teardownAttemptId")
  {}

  lemma ReleaseWords()
    ensures Identifier("unboundReleaseVerifiedAt") && Identifier(ACK)
  {}

  lemma ManifestWords()
    ensures Identifier("creationManifest") && Identifier("teardownIdentities")
  {}

  lemma ProofFieldsWrite()
    ensures forall i :: 0 <= i < |LEASE_PROOF_FIELDS| ==> Identifier(LEASE_PROOF_FIELDS[i])
    ensures forall i :: 0 <= i < |INSTANCE_PROOF_FIELDS| ==> Identifier(INSTANCE_PROOF_FIELDS[i])
  {
    hide Identifier;
    ReceiptWords();
    ReleaseWords();
    ManifestWords();
  }

  lemma LifecycleFieldsWrite()
    ensures forall i :: 0 <= i < |LEASE_LIFECYCLE_FIELDS| ==> Identifier(LEASE_LIFECYCLE_FIELDS[i])
    ensures forall i :: 0 <= i < |INSTANCE_LIFECYCLE_FIELDS| ==> Identifier(INSTANCE_LIFECYCLE_FIELDS[i])
  {
    assert Identifier("binding") && Identifier("clusterName") && Identifier("phase");
    assert Identifier("connectTokenCreation") && Identifier("leaseRef");
  }

  lemma FieldExpressionsWrite(user: string, ns: set<string>, e: Expr)
    requires user in ns && e in FieldExpressions(user)
    ensures Writes(e, ns)
  {
    ProofFieldsWrite();
    LifecycleFieldsWrite();
    FixedLiterals();
    hide Identifier, LiteralText, Writes, UnchangedStatusField, AuthorityCannotChangeStatusField;
    var a := UnchangedFields(LEASES, LEASE_PROOF_FIELDS, user);
    var c := UnchangedFields(INSTANCES, INSTANCE_PROOF_FIELDS, user);
    var d := LifecycleFields(LEASES, LEASE_LIFECYCLE_FIELDS, user);
    var i :| 0 <= i < |FieldExpressions(user)| && FieldExpressions(user)[i] == e;
    if i < |a| {
      FieldRulesWrite(LEASES, LEASE_PROOF_FIELDS[i], user, ns);
    } else if i < |a| + |c| {
      FieldRulesWrite(INSTANCES, INSTANCE_PROOF_FIELDS[i - |a|], user, ns);
    } else if i < |a| + |c| + |d| {
      FieldRulesWrite(LEASES, LEASE_LIFECYCLE_FIELDS[i - |a| - |c|], user, ns);
    } else {
      FieldRulesWrite(INSTANCES, INSTANCE_LIFECYCLE_FIELDS[i - |a| - |c| - |d|], user, ns);
    }
  }

  lemma CommonWrites(user: string, ns: set<string>, e: Expr)
    requires user in ns && e in CommonExpressions(user)
    ensures Writes(e, ns)
  {
    hide Writes, FieldExpressions;
    FirstRulesWrite(user, ns);
    ReciprocalWrites(ns);
    AbsenceWrites(user, ns);
    if e in FieldExpressions(user) { FieldExpressionsWrite(user, ns, e); }
  }

  /** Every text the operator requires is firm when the authority's name holds no raw white space. */
  lemma RequiredTextsFirm(user: string, e: Expr)
    requires NoRawWhite(user) && e in RequiredExpressions(user)
    ensures Firm(SourceText(e))
  {
    hide Writes, Firm, RequiredExpressions, NoRawWhite;
    RequiredWrite(user, e);
    SourceTextIsFirm(e, {user});
  }

  lemma RequiredWrite(user: string, e: Expr)
    requires e in RequiredExpressions(user)
    ensures Writes(e, {user})
  {
    hide Writes, CommonExpressions, RetentionKept;
    if e in CommonExpressions(user) { CommonWrites(user, {user}, e); } else { RetentionWrites({user}); }
  }

  lemma AnnotationWrites(w: Expr, ns: set<string>)
    requires Side(w)
    ensures Writes(Annotated(w), ns) && Writes(Annotation(w), ns)
    ensures Writes(Not(Has(Metadata(w), "annotations")), ns)
    ensures Writes(Not(In(Lit(Str(RELEASE)), Select(Metadata(w), "annotations"))), ns)
  {
    StatusWords();
    MetadataWords();
    LongLiterals();
    hide Identifier, LiteralText;
    assert Rooted(Metadata(w)) && Writes(Metadata(w), ns);
    var all := Select(Metadata(w), "annotations");
    assert Rooted(all) && Writes(all, ns) && Writes(Lit(Str(RELEASE)), ns);
    assert Writes(In(Lit(Str(RELEASE)), all), ns) && Writes(Has(Metadata(w), "annotations"), ns);
  }

  lemma GrantedWrites(ns: set<string>)
    ensures Writes(ReleaseGranted(), ns)
  {
    StatusWords();
    ReferenceWords();
    hide Identifier;
    AnnotationWrites(OldObject, ns);
    assert Rooted(Metadata(OldObject)) && Writes(Metadata(OldObject), ns);
    assert Writes(Select(Metadata(OldObject), "uid"), ns);
    NotNamed();
    hide Annotation, Annotated, Writes;
    PairWrites(Annotation(OldObject), Select(Metadata(OldObject), "uid"), ns);
    PairWrites(Annotated(OldObject), Eq(Annotation(OldObject), Select(Metadata(OldObject), "uid")), ns);
  }

  lemma OverrideWrites(controlPlane: string, ns: set<string>)
    requires controlPlane in ns
    ensures Writes(QuarantineOverride(controlPlane), ns)
  {
    TokenWords();
    LongLiterals();
    assert Writes(Lit(Str("Quarantined")), ns);
    hide Identifier, LiteralText, Writes;
    IsWrites(Username, controlPlane, ns);
    GrantedWrites(ns);
    FieldWrites(OldObject, "phase", ns);
    hide ReleaseGranted, Is;
    var phase := Eq(Select(Status(OldObject), "phase"), Lit(Str("Quarantined")));
    PairWrites(Select(Status(OldObject), "phase"), Lit(Str("Quarantined")), ns);
    var user, head := Is(Username, controlPlane),
      And(And(And(Is(Username, controlPlane), ReleaseGranted()), Has(OldObject, "status")),
          Has(Status(OldObject), "phase"));
    All4Writes(user, ReleaseGranted(), Has(OldObject, "status"), Has(Status(OldObject), "phase"), ns);
    PairWrites(head, phase, ns);
  }

  lemma NotNamed()
    ensures !Annotation(OldObject).Attr?
  {}

  lemma ListWrites(a: Attribute, s: string, t: string, ns: set<string>)
    requires if Named(Attr(a)) then s in ns && t in ns else LiteralText(s) && LiteralText(t)
    ensures Writes(In(Attr(a), Lit(List([Str(s), Str(t)]))), ns)
    ensures Writes(Not(In(Attr(a), Lit(List([Str(s), Str(t)])))), ns)
  {
    var listed := In(Attr(a), Lit(List([Str(s), Str(t)])));
    assert Writes(Attr(a), ns) && (Named(Attr(a)) || Writes(Lit(List([Str(s), Str(t)])), ns));
    assert Writes(listed, ns);
  }

  lemma KeptAnnotationWrites(ns: set<string>)
    ensures Writes(And(And(Ne(OldObject, Lit(Null)), Annotated(OldObject)),
                       Eq(Annotation(OldObject), Annotation(Object))), ns)
  {
    hide Writes;
    AnnotationWrites(Object, ns);
    AnnotationWrites(OldObject, ns);
    NullWrites(ns);
    NotNamed();
    hide Annotation, Annotated;
    PairWrites(Annotation(OldObject), Annotation(Object), ns);
    PairWrites(Ne(OldObject, Lit(Null)), Annotated(OldObject), ns);
    PairWrites(And(Ne(OldObject, Lit(Null)), Annotated(OldObject)), Eq(Annotation(OldObject), Annotation(Object)), ns);
  }

  lemma GrantRuleWrites(resource: string, controlPlane: string, user: string, ns: set<string>)
    requires LiteralText(resource) && controlPlane in ns && user in ns
    ensures Writes(ReleaseGrantedByOperator(resource, controlPlane, user), ns)
  {
    FixedLiterals();
    hide LiteralText, Writes;
    IsWrites(Resource, resource, ns);
    IsWrites(Operation, DELETE, ns);
    ListWrites(Username, controlPlane, user, ns);
    AnnotationWrites(Object, ns);
    KeptAnnotationWrites(ns);
    hide Is, IsNot;
    var kobe := In(Attr(Username), Lit(List([Str(controlPlane), Str(user)])));
    var kept := And(And(Ne(OldObject, Lit(Null)), Annotated(OldObject)), Eq(Annotation(OldObject), Annotation(Object)));
    hide Annotation, Annotated;
    var a, b, c := IsNot(Resource, resource), Not(kobe), Is(Operation, DELETE);
    var d := Not(Has(Metadata(Object), "annotations"));
    var f := Not(In(Lit(Str(RELEASE)), Select(Metadata(Object), "annotations")));
    Any4Writes(a, b, c, d, ns);
    Any4Writes(Or(Or(a, b), c), d, f, kept, ns);
  }

  /** The same for the texts the chart renders, over both Kobe identities. */
  lemma ChartTextsFirm(user: string, controlPlane: string, e: Expr)
    requires NoRawWhite(user) && NoRawWhite(controlPlane) && e in ChartExpressions(user, controlPlane)
    ensures Firm(SourceText(e))
  {
    hide Writes, Firm, ChartExpressions, NoRawWhite;
    ChartWrite(user, controlPlane, e);
    SourceTextIsFirm(e, {user, controlPlane});
  }

  lemma ChartWrite(user: string, controlPlane: string, e: Expr)
    requires e in ChartExpressions(user, controlPlane)
    ensures Writes(e, {user, controlPlane})
  {
    var ns := {user, controlPlane};
    FixedLiterals();
    RetentionWrites(ns);
    OverrideWrites(controlPlane, ns);
    hide RetentionKept, QuarantineOverride, LiteralText;
    assert Writes(RetentionKeptOrReleased(controlPlane), ns);
    hide Writes, CommonExpressions, RetentionKeptOrReleased, ReleaseGrantedByOperator;
    GrantRuleWrites(LEASES, controlPlane, user, ns);
    GrantRuleWrites(INSTANCES, controlPlane, user, ns);
    if e in CommonExpressions(user) { CommonWrites(user, ns, e); }
  }

  // ---------------------------------------------------------------- telling the texts apart

  lemma WordsAcrossGap(a: seq<Token>, b: seq<Token>)
    ensures Words(Render(a + ([Gap] + b))) == Words(Render(a)) + Words(Render(b))
  {
    RenderAppend(a, [Gap] + b);
    assert ([Gap] + b)[1..] == b;
    WordsAppend(Render(a), Render(b));
  }

  lemma InfixApart(a: seq<Token>, op: string, b: seq<Token>)
    ensures a + Infix(op) + b == a + ([Gap] + ([Bare(op)] + ([Gap] + b)))
  {}

  lemma WordsAcrossInfix(a: seq<Token>, op: string, b: seq<Token>)
    requires Word(op)
    ensures Words(Render(a + Infix(op) + b)) == Words(Render(a)) + [op] + Words(Render(b))
  {
    hide Words, Render, Word;
    var tail := [Bare(op)] + ([Gap] + b);
    InfixApart(a, op, b);
    WordsAcrossGap(a, tail);
    WordsAcrossGap([Bare(op)], b);
    WordsOfToken(Bare(op));
    ConcatAssociative(Words(Render(a)), [op], Words(Render(b)));
  }

  lemma WordsOfToken(t: Token)
    requires Word(SpellToken(t))
    ensures Words(Render([t])) == [SpellToken(t)]
  {
    assert Render([t]) == SpellToken(t) + "" == SpellToken(t);
    WordsOfWord(SpellToken(t));
  }

  /** The two leftmost disjuncts. */
  function Spine(e: Expr): Expr { if e.Or? && e.left.Or? then Spine(e.left) else e }

  function SecondOperand(y: Expr): seq<Token> { Operand(y, y.Or? || GroupedInOr(y)) }

  lemma DisjunctionTokens(a: Expr, b: Expr)
    requires !GroupedInOr(a)
    ensures Tokens(Or(a, b)) == Tokens(a) + Infix("||") + SecondOperand(b)
  {}

  /** What follows the two leftmost disjuncts. */
  function SpineRest(e: Expr): seq<Token> {
    if e.Or? && e.left.Or? then SpineRest(e.left) + (Infix("||") + SecondOperand(e.right)) else []
  }

  lemma {:induction false} SpinePrefix(e: Expr)
    requires e.Or?
    ensures Tokens(e) == Tokens(Spine(e)) + SpineRest(e)
  {
    if e.left.Or? {
      DisjunctionTokens(e.left, e.right);
      hide Tokens, SecondOperand, Infix;
      SpinePrefix(e.left);
      ConcatAssociative(Tokens(e.left), Infix("||"), SecondOperand(e.right));
      ConcatAssociative(Tokens(Spine(e)), SpineRest(e.left), Infix("||") + SecondOperand(e.right));
    }
  }

  /** How a comparison with a fixed literal reads. */
  lemma ComparisonTokens(a: Attribute, s: string)
    requires !Named(Attr(a))
    ensures Tokens(Is(a, s)) == [Bare(Path(a))] + Infix("==") + [Single(s)]
    ensures Tokens(IsNot(a, s)) == [Bare(Path(a))] + Infix("!=") + [Single(s)]
  {
    assert Tokens(Attr(a)) == [Bare(Path(a))] && Tokens(Lit(Str(s))) == [Single(s)];
    assert Compared(Is(a, s), "==") == [Bare(Path(a))] + Infix("==") + [Single(s)];
  }

  lemma NameTokens(a: Attribute, s: string)
    requires Named(Attr(a))
    ensures Tokens(Is(a, s)) == [Bare(Path(a))] + Infix("==") + [Json(s)]
    ensures Tokens(IsNot(a, s)) == [Bare(Path(a))] + Infix("!=") + [Json(s)]
  {
    assert Tokens(Attr(a)) == [Bare(Path(a))];
    assert Compared(Is(a, s), "==") == [Bare(Path(a))] + Infix("==") + [Json(s)];
    assert Compared(Is(a, s), "!=") == [Bare(Path(a))] + Infix("!=") + [Json(s)];
  }

  lemma PathIsWord(a: Attribute)
    ensures Word(Path(a))
  {
    PathIsBare(a);
    hide Path;
    assert forall i :: 0 <= i < |Path(a)| ==> BareChar(Path(a)[i]);
  }

  lemma LiteralIsWord(s: string)
    requires LiteralText(s)
    ensures Word("'" + s + "'")
  {}

  /** A comparison opens with its attribute and its operator, whatever follows. */
  lemma ComparisonWords(a: Attribute, op: string, right: seq<Token>)
    requires Word(op)
    ensures Words(Render([Bare(Path(a))] + Infix(op) + right)) == [Path(a), op] + Words(Render(right))
  {
    PathIsWord(a);
    hide Path, Word, Words, Render;
    WordsOfToken(Bare(Path(a)));
    WordsAcrossInfix([Bare(Path(a))], op, right);
  }

  /** How a rule about one resource begins, before its second disjunct. */
  function ResourceHead(resource: string): seq<Token> {
    [Bare(Path(Resource))] + Infix("!=") + [Single(resource)]
  }

  lemma OpeningTokens(e: Expr, resource: string, y: Expr) returns (rest: seq<Token>)
    requires e.Or? && Spine(e) == Or(IsNot(Resource, resource), y)
    ensures rest == SpineRest(e)
    ensures Tokens(e) == ResourceHead(resource) + Infix("||") + (SecondOperand(y) + rest)
  {
    SpinePrefix(e);
    rest := SpineRest(e);
    var x, head := IsNot(Resource, resource), ResourceHead(resource);
    ComparisonTokens(Resource, resource);
    DisjunctionTokens(x, y);
    hide Tokens, Operand, Spine, Path, ResourceHead, SecondOperand;
    assert head + Infix("||") + SecondOperand(y) + rest == head + Infix("||") + (SecondOperand(y) + rest);
  }

  lemma ThreeAndOne(a: string, b: string, c: string, d: string, tail: seq<string>)
    ensures [a, b] + [c] + [d] + tail == [a, b, c, d] + tail
  {}

  lemma OpeningWords(resource: string, tail: seq<Token>)
    requires LiteralText(resource)
    ensures Words(Render(ResourceHead(resource) + Infix("||") + tail)) ==
            [Path(Resource), "!=", "'" + resource + "'", "||"] + Words(Render(tail))
  {
    LiteralIsWord(resource);
    assert Word("||") && Word("!=");
    hide LiteralText, Path, Words, Render, Word, Infix;
    WordsOfToken(Single(resource));
    ComparisonWords(Resource, "!=", [Single(resource)]);
    assert Words(Render(ResourceHead(resource))) == [Path(Resource), "!="] + ["'" + resource + "'"];
    hide ResourceHead;
    WordsAcrossInfix(ResourceHead(resource), "||", tail);
    ThreeAndOne(Path(Resource), "!=", "'" + resource + "'", "||", Words(Render(tail)));
  }

  lemma SecondTokens(a: Attribute, s: string, negated: bool, rest: seq<Token>) returns (more: seq<Token>)
    ensures SecondOperand(if negated then IsNot(a, s) else Is(a, s)) + rest ==
            [Bare(Path(a))] + Infix(Operator(negated)) + more
  {
    var y, op := if negated then IsNot(a, s) else Is(a, s), Operator(negated);
    var last := if Named(Attr(a)) then Json(s) else Single(s);
    if Named(Attr(a)) { NameTokens(a, s); } else { ComparisonTokens(a, s); }
    assert SecondOperand(y) == Tokens(y) == [Bare(Path(a))] + Infix(op) + [last];
    hide Tokens, Operand, Path, SecondOperand;
    more := [last] + rest;
    assert [Bare(Path(a))] + Infix(op) + [last] + rest == [Bare(Path(a))] + Infix(op) + more;
  }

  lemma FourAndTwo(a: string, b: string, c: string, d: string, e: string, f: string, tail: seq<string>)
    ensures [a, b, c, d] + ([e, f] + tail) == [a, b, c, d, e, f] + tail
  {}

  function Operator(negated: bool): string { if negated then "!=" else "==" }

  /** The words of a rule whose second disjunct is a comparison too. */
  lemma SecondComparison(e: Expr, resource: string, a: Attribute, s: string, negated: bool) returns (tail: seq<string>)
    requires e.Or? && LiteralText(resource)
    requires Spine(e) == Or(IsNot(Resource, resource), if negated then IsNot(a, s) else Is(a, s))
    ensures Words(SourceText(e)) ==
            [Path(Resource), "!=", "'" + resource + "'", "||", Path(a), Operator(negated)] + tail
  {
    assert Word(Operator(negated));
    hide Words, Render, Tokens, Path, Operand, Word, Spine, LiteralText, ResourceHead, SecondOperand, Is, IsNot;
    var y := if negated then IsNot(a, s) else Is(a, s);
    var rest := OpeningTokens(e, resource, y);
    var more := SecondTokens(a, s, negated, rest);
    hide Operator;
    OpeningWords(resource, SecondOperand(y) + rest);
    ComparisonWords(a, Operator(negated), more);
    tail := Words(Render(more));
    FourAndTwo(Path(Resource), "!=", "'" + resource + "'", "||", Path(a), Operator(negated), tail);
  }

  lemma RetentionOpening() returns (tail: seq<string>)
    ensures Words(SourceText(RetentionKept())) ==
            [Path(Resource), "!=", "'" + LEASES + "'", "||", Path(Operation), "!="] + tail
  {
    var e := RetentionKept();
    assert e.left.left.left.left == Or(IsNot(Resource, LEASES), IsNot(Operation, UPDATE));
    assert Spine(e.left.left.left) == Spine(e.left.left.left.left) == e.left.left.left.left;
    assert Spine(e) == Spine(e.left) == Spine(e.left.left) == Spine(e.left.left.left);
    FixedLiterals();
    hide LiteralText, Words, Render, Tokens, Spine;
    tail := SecondComparison(e, LEASES, Operation, UPDATE, true);
  }

  lemma PathsDiffer()
    ensures Path(Username) != Path(Operation) && Path(Username) != Path(Resource)
  {
    assert |Path(Username)| == 25 && |Path(Operation)| == 17;
    assert Path(Username)[8] == 'u' && Path(Resource)[8] == 'r';
  }

  lemma ResourcesDiffer()
    ensures "'" + EVIDENCE + "'" != "'" + LEASES + "'"
  {
    assert ("'" + EVIDENCE + "'")[1] == 'v' && ("'" + LEASES + "'")[1] == 'c';
  }

  predicate ReadsAsRetention(e: Expr) { Words(SourceText(e)) == Words(SourceText(RetentionKept())) }

  /** A rule that goes on with another comparison does not read as the retention rule. */
  lemma ComparisonReadsApart(e: Expr, resource: string, a: Attribute, s: string, negated: bool)
    requires e.Or? && LiteralText(resource)
    requires Spine(e) == Or(IsNot(Resource, resource), if negated then IsNot(a, s) else Is(a, s))
    requires resource == EVIDENCE || Path(a) != Path(Operation) || !negated
    ensures !ReadsAsRetention(e)
  {
    hide Words, SourceText, Path, Spine, LiteralText, RetentionKept;
    var tail := RetentionOpening();
    var other := SecondComparison(e, resource, a, s, negated);
    ResourcesDiffer();
    var mine, theirs := Words(SourceText(e)), Words(SourceText(RetentionKept()));
    assert mine[2] == "'" + resource + "'" && mine[4] == Path(a) && mine[5] == Operator(negated);
    assert theirs[2] == "'" + LEASES + "'" && theirs[4] == Path(Operation) && theirs[5] == "!=";
    assert "=="[0] == '=' && "!="[0] == '!';
  }

  lemma FieldRulesReadApart(resource: string, f: string, user: string)
    requires LiteralText(resource)
    ensures !ReadsAsRetention(UnchangedStatusField(resource, f, user))
    ensures !ReadsAsRetention(AuthorityCannotChangeStatusField(resource, f, user))
  {
    PathsDiffer();
    var e, e' := UnchangedStatusField(resource, f, user), AuthorityCannotChangeStatusField(resource, f, user);
    assert Spine(e) == Spine(e.left) == e.left.left && Spine(e') == Spine(e'.left) == e'.left.left;
    hide Path, LiteralText, ReadsAsRetention;
    ComparisonReadsApart(e, resource, Username, user, false);
    ComparisonReadsApart(e', resource, Username, user, true);
  }

  lemma OtherRulesReadApart(user: string)
    ensures !ReadsAsRetention(EvidenceOnlyByAuthority(user)) && !ReadsAsRetention(AbsenceUnchanged(user))
    ensures !ReadsAsRetention(ConnectTokenReciprocal())
  {
    PathsDiffer();
    FixedLiterals();
    var a, b, c := EvidenceOnlyByAuthority(user), AbsenceUnchanged(user), ConnectTokenReciprocal();
    assert Spine(a) == a;
    assert Spine(b) == Spine(b.left) == b.left.left;
    assert Spine(c.left.left.left) == c.left.left.left.left;
    assert Spine(c) == Spine(c.left) == Spine(c.left.left) == Spine(c.left.left.left);
    hide Path, LiteralText, ReadsAsRetention, Spine;
    ComparisonReadsApart(a, EVIDENCE, Username, user, false);
    ComparisonReadsApart(b, LEASES, Username, user, false);
    ComparisonReadsApart(c, LEASES, Operation, DELETE, false);
  }

  lemma StatusOnlyTokens(user: string) returns (more: seq<Token>)
    ensures Tokens(AuthorityWritesStatusOnly(user)) == [Bare(Path(Username))] + Infix("!=") + more
  {
    var e := AuthorityWritesStatusOnly(user);
    var x, y := IsNot(Username, user), Not(In(Attr(Resource), Lit(List([Str(LEASES), Str(INSTANCES)]))));
    assert Spine(e) == Or(x, y);
    hide Tokens, SecondOperand, Path, Spine, Infix;
    SpinePrefix(e);
    var rest := SpineRest(e);
    NameTokens(Username, user);
    DisjunctionTokens(x, y);
    var head, tail := [Bare(Path(Username))] + Infix("!="), Infix("||") + SecondOperand(y) + rest;
    more := [Json(user)] + tail;
    ConcatAssociative(Tokens(x), Infix("||"), SecondOperand(y));
    ConcatAssociative(Tokens(x), Infix("||") + SecondOperand(y), rest);
    ConcatAssociative(head, [Json(user)], tail);
  }

  lemma StatusOnlyReadsApart(user: string)
    ensures !ReadsAsRetention(AuthorityWritesStatusOnly(user))
  {
    assert Word("!=");
    PathsDiffer();
    hide Tokens, Words, Render, Path, Word, AuthorityWritesStatusOnly, RetentionKept;
    var more := StatusOnlyTokens(user);
    ComparisonWords(Username, "!=", more);
    var tail := RetentionOpening();
    assert Words(SourceText(AuthorityWritesStatusOnly(user)))[0] == Path(Username);
  }

  lemma FirstCharacter(s: string)
    requires s != "" && !IsWhite(s[0])
    ensures Words(s) != [] && Words(s)[0] != "" && Words(s)[0][0] == s[0]
  {
    assert WordEnd(s) > 0;
  }

  lemma GrantSpine(resource: string, controlPlane: string, user: string, e: Expr, y: Expr)
    requires e == ReleaseGrantedByOperator(resource, controlPlane, user)
    requires y == Not(In(Attr(Username), Lit(List([Str(controlPlane), Str(user)]))))
    ensures e.Or? && Spine(e) == Or(IsNot(Resource, resource), y)
  {
    var pair := e.left.left.left.left;
    assert pair == Or(IsNot(Resource, resource), y);
    assert Spine(pair) == pair;
    assert Spine(e.left.left.left) == pair;
    assert Spine(e.left.left) == pair;
    assert Spine(e.left) == pair;
  }

  lemma NegatedListOpens(x: Expr)
    requires x.In?
    ensures SecondOperand(Not(x)) != [] && SecondOperand(Not(x))[0] == Bare("!")
  {
    assert Tokens(Not(x)) == [Bare("!")] + Parens(Tokens(x));
  }

  /** After its resource, a rule with a negated list goes on with an exclamation mark. */
  lemma NegatedListWords(e: Expr, resource: string, x: Expr) returns (more: seq<string>)
    requires e.Or? && Spine(e) == Or(IsNot(Resource, resource), Not(x)) && x.In? && LiteralText(resource)
    ensures Words(SourceText(e)) == [Path(Resource), "!=", "'" + resource + "'", "||"] + more
    ensures more != [] && more[0] != "" && more[0][0] == '!'
  {
    NegatedListOpens(x);
    hide Tokens, SecondOperand, Words, Spine, LiteralText, Path, Infix, ResourceHead, IsNot;
    var rest := OpeningTokens(e, resource, Not(x));
    var tail := SecondOperand(Not(x)) + rest;
    OpeningWords(resource, tail);
    more := Words(Render(tail));
    assert tail[0] == Bare("!") && Render(tail) == "!" + Render(tail[1..]);
    hide Render;
    FirstCharacter(Render(tail));
  }

  lemma FifthWordsDiffer(a: string, b: string, c: string, d: string, more: seq<string>,
                         a': string, b': string, c': string, d': string, e: string, f: string, tail: seq<string>)
    requires more != [] && more[0] != e
    ensures [a, b, c, d] + more != [a', b', c', d', e, f] + tail
  {
    assert ([a, b, c, d] + more)[4] == more[0] && ([a', b', c', d', e, f] + tail)[4] == e;
  }

  lemma GrantRuleReadsApart(resource: string, controlPlane: string, user: string)
    requires LiteralText(resource)
    ensures !ReadsAsRetention(ReleaseGrantedByOperator(resource, controlPlane, user))
  {
    var e := ReleaseGrantedByOperator(resource, controlPlane, user);
    var y := Not(In(Attr(Username), Lit(List([Str(controlPlane), Str(user)]))));
    GrantSpine(resource, controlPlane, user, e, y);
    assert Path(Operation)[0] == 'r';
    hide SourceText, Words, Spine, ReleaseGrantedByOperator, LiteralText, RetentionKept, Path, IsNot;
    var more := NegatedListWords(e, resource, y.e);
    var tail := RetentionOpening();
    FifthWordsDiffer(Path(Resource), "!=", "'" + resource + "'", "||", more,
                     Path(Resource), "!=", "'" + LEASES + "'", "||", Path(Operation), "!=", tail);
  }

  lemma ReleasedReadsApart(controlPlane: string)
    ensures !ReadsAsRetention(RetentionKeptOrReleased(controlPlane))
  {
    var a, b := RetentionKept(), QuarantineOverride(controlPlane);
    hide RetentionKept, QuarantineOverride;
    RetentionIsOr();
    DisjunctionTokens(a, b);
    assert Word("||");
    hide Tokens, SecondOperand, Words, Render;
    WordsAcrossInfix(Tokens(a), "||", SecondOperand(b));
  }

  lemma RetentionIsOr()
    ensures RetentionKept().Or?
  {}

  lemma ChartRuleReadsApart(user: string, controlPlane: string, e: Expr)
    requires e in ChartExpressions(user, controlPlane)
    ensures !ReadsAsRetention(e)
  {
    FixedLiterals();
    hide ReadsAsRetention, LiteralText, FieldExpressions, EvidenceOnlyByAuthority, AuthorityWritesStatusOnly,
         ConnectTokenReciprocal, AbsenceUnchanged, RetentionKeptOrReleased, ReleaseGrantedByOperator;
    OtherRulesReadApart(user);
    StatusOnlyReadsApart(user);
    ReleasedReadsApart(controlPlane);
    GrantRuleReadsApart(LEASES, controlPlane, user);
    GrantRuleReadsApart(INSTANCES, controlPlane, user);
    if e in FieldExpressions(user) { FieldReadsApart(user, e); }
  }

  /** No expression of the chart reads as the retention rule that startup requires. */
  lemma ChartReadsApart(user: string, controlPlane: string, e: Expr)
    requires e in ChartExpressions(user, controlPlane)
    ensures Normalize(SourceText(e)) != Normalize(SourceText(RetentionKept()))
  {
    hide Normalize, Words, SourceText, ChartExpressions, RetentionKept;
    NormalFormIsItsWords(SourceText(e), SourceText(RetentionKept()));
    ChartRuleReadsApart(user, controlPlane, e);
  }

  lemma FieldReadsApart(user: string, e: Expr)
    requires e in FieldExpressions(user)
    ensures !ReadsAsRetention(e)
  {
    FixedLiterals();
    hide LiteralText, ReadsAsRetention, UnchangedStatusField, AuthorityCannotChangeStatusField;
    var a := UnchangedFields(LEASES, LEASE_PROOF_FIELDS, user);
    var c := UnchangedFields(INSTANCES, INSTANCE_PROOF_FIELDS, user);
    var d := LifecycleFields(LEASES, LEASE_LIFECYCLE_FIELDS, user);
    var i :| 0 <= i < |FieldExpressions(user)| && FieldExpressions(user)[i] == e;
    if i < |a| {
      FieldRulesReadApart(LEASES, LEASE_PROOF_FIELDS[i], user);
    } else if i < |a| + |c| {
      FieldRulesReadApart(INSTANCES, INSTANCE_PROOF_FIELDS[i - |a|], user);
    } else if i < |a| + |c| + |d| {
      FieldRulesReadApart(LEASES, LEASE_LIFECYCLE_FIELDS[i - |a| - |c|], user);
    } else {
      FieldRulesReadApart(INSTANCES, INSTANCE_LIFECYCLE_FIELDS[i - |a| - |c| - |d|], user);
    }
  }

  // ---------------------------------------------------------------- names that read alike

  /** Texts whose names differ in repeated white space only read alike. */
  lemma RespelledReadsAlike(a: seq<Token>, name: string, i: nat, b: seq<Token>)
    requires i < |name| && RawWhite(name[i])
    ensures Normalize(Render(a + [Json(Doubled(name, i))] + b)) == Normalize(Render(a + [Json(name)] + b))
  {
    hide Render, Normalize, Quoted, Doubled, RawWhite;
    RenderAround(a, Doubled(name, i), b);
    RenderAround(a, name, b);
    DoubledNameReadsAlike(Render(a), name, i, Render(b));
  }

  lemma RenderAround(a: seq<Token>, name: string, b: seq<Token>)
    ensures Render(a + [Json(name)] + b) == Render(a) + (Quoted(name) + Render(b))
  {
    var token := [Json(name)];
    assert Render(token) == Quoted(name) + "" == Quoted(name);
    hide Render, Quoted;
    RenderAppend(a + token, b);
    RenderAppend(a, token);
    ConcatAssociative(Render(a), Quoted(name), Render(b));
  }

  function EvidenceHead(): seq<Token> {
    ResourceHead(EVIDENCE) + Infix("||") + [Bare(Path(Username))] + Infix("==")
  }

  lemma EvidenceTokens(user: string)
    ensures Tokens(EvidenceOnlyByAuthority(user)) == EvidenceHead() + [Json(user)] + []
  {
    var x, y := IsNot(Resource, EVIDENCE), Is(Username, user);
    ComparisonTokens(Resource, EVIDENCE);
    NameTokens(Username, user);
    DisjunctionTokens(x, y);
    assert SecondOperand(y) == Tokens(y);
    hide Tokens, Path, Operand, SecondOperand, Infix;
    var head, name := ResourceHead(EVIDENCE) + Infix("||"), [Bare(Path(Username))] + Infix("==");
    ConcatAssociative(head, name, [Json(user)]);
    ConcatAssociative(head, [Bare(Path(Username))], Infix("=="));
  }

  /** The evidence rule reads alike for a name that repeats its white space. */
  lemma EvidenceReadsAlike(user: string, i: nat)
    requires i < |user| && RawWhite(user[i])
    ensures Normalize(SourceText(EvidenceOnlyByAuthority(Doubled(user, i)))) ==
            Normalize(SourceText(EvidenceOnlyByAuthority(user)))
  {
    hide Tokens, EvidenceHead, Normalize, Render, Doubled, EvidenceOnlyByAuthority, RawWhite;
    EvidenceTokens(user);
    EvidenceTokens(Doubled(user, i));
    RespelledReadsAlike(EvidenceHead(), user, i, []);
  }

  // ---- the rule that names both Kobe identities

  function ListHead(resource: string): seq<Token> {
    ResourceHead(resource) + Infix("||") + ([Bare("!"), Bare("("), Bare(Path(Username))] + Infix("in")) + [Bare("[")]
  }

  function ListRest(user: string): seq<Token> { [Bare(","), Gap, Json(user), Bare("]"), Bare(")")] }

  lemma KobeListTokens(controlPlane: string, user: string)
    ensures SecondOperand(Not(In(Attr(Username), Lit(List([Str(controlPlane), Str(user)]))))) ==
            [Bare("!"), Bare("("), Bare(Path(Username))] + Infix("in")
            + ([Bare("["), Json(controlPlane)] + ListRest(user))
  {
    var names := [Str(controlPlane), Str(user)];
    var x := In(Attr(Username), Lit(List(names)));
    assert names[1..] == [Str(user)];
    assert Items([Str(user)], true) == [Json(user)];
    assert Items(names, true) == [Json(controlPlane), Bare(","), Gap, Json(user)];
    assert Tokens(Attr(Username)) == [Bare(Path(Username))];
    MembershipTokens(Attr(Username), Lit(List(names)));
    assert Tokens(Not(x)) == [Bare("!")] + Parens(Tokens(x));
    hide Tokens, Path, Infix;
  }

  lemma GrantRuleTokens(resource: string, controlPlane: string, user: string)
    ensures var e := ReleaseGrantedByOperator(resource, controlPlane, user);
            Tokens(e) == ListHead(resource) + [Json(controlPlane)] + (ListRest(user) + SpineRest(e))
  {
    var e := ReleaseGrantedByOperator(resource, controlPlane, user);
    var y := Not(In(Attr(Username), Lit(List([Str(controlPlane), Str(user)]))));
    GrantSpine(resource, controlPlane, user, e, y);
    KobeListTokens(controlPlane, user);
    hide Tokens, SecondOperand, Spine, SpineRest, Path, Infix, ReleaseGrantedByOperator, ResourceHead, ListRest;
    var rest := OpeningTokens(e, resource, y);
    var head, bang := ResourceHead(resource) + Infix("||"), [Bare("!"), Bare("("), Bare(Path(Username))] + Infix("in");
    RegroupList(head, bang, [Json(controlPlane)], ListRest(user), rest);
  }

  lemma RegroupList(head: seq<Token>, bang: seq<Token>, name: seq<Token>, list: seq<Token>, rest: seq<Token>)
    requires |name| == 1
    ensures head + (bang + ([Bare("["), name[0]] + list) + rest) == head + bang + [Bare("[")] + name + (list + rest)
  {
    assert [Bare("["), name[0]] == [Bare("[")] + name;
  }

  lemma GrantRestIsShared(resource: string, controlPlane: string, other: string, user: string)
    ensures SpineRest(ReleaseGrantedByOperator(resource, controlPlane, user)) ==
            SpineRest(ReleaseGrantedByOperator(resource, other, user))
  {
    hide SecondOperand, Infix;
    var e := ReleaseGrantedByOperator(resource, controlPlane, user);
    var e' := ReleaseGrantedByOperator(resource, other, user);
    assert SpineRest(e.left.left.left.left) == [] == SpineRest(e'.left.left.left.left);
    assert SpineRest(e.left.left.left) == SpineRest(e'.left.left.left);
    assert SpineRest(e.left.left) == SpineRest(e'.left.left);
    assert SpineRest(e.left) == SpineRest(e'.left);
  }

  /** The rule about release annotations reads alike for a control plane that repeats its white space. */
  lemma GrantRuleReadsAlike(resource: string, controlPlane: string, i: nat, user: string)
    requires i < |controlPlane| && RawWhite(controlPlane[i])
    ensures Normalize(SourceText(ReleaseGrantedByOperator(resource, Doubled(controlPlane, i), user))) ==
            Normalize(SourceText(ReleaseGrantedByOperator(resource, controlPlane, user)))
  {
    var other := Doubled(controlPlane, i);
    hide Tokens, ListHead, ListRest, SpineRest, Normalize, Render, Doubled, ReleaseGrantedByOperator, RawWhite;
    GrantRuleTokens(resource, controlPlane, user);
    GrantRuleTokens(resource, other, user);
    GrantRestIsShared(resource, controlPlane, other, user);
    RespelledReadsAlike(ListHead(resource), controlPlane, i,
                        ListRest(user) + SpineRest(ReleaseGrantedByOperator(resource, controlPlane, user)));
  }
}
