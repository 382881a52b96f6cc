/**
 Names with raw white space. Startup takes a text for one that spells a name with more white space, so
 for such names it accepts policies that do not enforce what it requires. This module shows the
 failing policies and requests, and that acceptance means enforcement for exactly the other names.
 */
module RawNames {
  import opened Common
  import opened Cel
  import opened AuthorityExpressions
  import opened ExpressionText
  import opened ExpressionSource
  import opened AuthorityTexts
  import opened PolicyValidation
  import opened AuthorityRuns

  // ---------------------------------------------------------------- a policy with one text respelled

  function Misnamed(es: seq<Expr>, k: nat, e: Expr): (texts: seq<string>)
    requires k < |es|
    ensures |texts| == |es|
  {
    Texts(es)[k := SourceText(e)]
  }

  lemma MisnamedAccepted(name: string, pc: string, bc: string, es: seq<Expr>, k: nat, e: Expr)
    requires k < |es| && Normalize(SourceText(e)) == Normalize(SourceText(es[k]))
    ensures ValidatePolicy(MinimalPolicy(name, [AUTHORITY_COVERAGE], Misnamed(es, k, e)), MinimalBinding(name),
                           name, pc, bc, [AUTHORITY_COVERAGE], Texts(es)).Ok?
  {
    hide ValidatePolicy, Normalize, SourceText, MinimalPolicy, MinimalBinding;
    var texts := Misnamed(es, k, e);
    forall j | 0 <= j < |es| ensures Lists(texts, Texts(es)[j]) {
      assert Normalize(texts[j]) == Normalize(Texts(es)[j]);
    }
    MinimalPolicyAccepted(name, pc, bc, [AUTHORITY_COVERAGE], Texts(es), texts);
  }

  lemma MisnamedAdmits(parse: Compiler, name: string, es: seq<Expr>, k: nat, e: Expr, r: Request)
    requires k < |es| && Reads(parse, es) && Reads(parse, [e])
    requires Holds(e, r) && forall j :: 0 <= j < |es| && j != k ==> Holds(es[j], r)
    ensures Admits(parse, MinimalPolicy(name, [AUTHORITY_COVERAGE], Misnamed(es, k, e)), MinimalBinding(name), r, false)
  {
    hide SourceText, Compile, Eval, Enforced;
    var texts := Misnamed(es, k, e);
    forall j | 0 <= j < |texts| ensures Passes(parse, Some("Fail"), texts[j], r) {
      if j == k {
        assert Means(Compile(parse, SourceText([e][0])), [e][0]);
      } else {
        assert Means(Compile(parse, SourceText(es[j])), es[j]);
      }
    }
  }

  /** A respelled text that passes a request which the required one refuses escapes enforcement. */
  lemma MisnamedEscapes(parse: Compiler, name: string, pc: string, bc: string, es: seq<Expr>, k: nat, e: Expr,
                        r: Request) returns (p: Policy, b: Binding)
    requires k < |es| && Normalize(SourceText(e)) == Normalize(SourceText(es[k]))
    requires Reads(parse, es) && Reads(parse, [e])
    requires ProofRequest(r) && Holds(e, r) && !Holds(es[k], r)
    requires forall j :: 0 <= j < |es| && j != k ==> Holds(es[j], r)
    ensures ValidatePolicy(p, b, name, pc, bc, [AUTHORITY_COVERAGE], Texts(es)).Ok?
    ensures Admits(parse, p, b, r, false) && !Enforces(parse, p, b, es)
  {
    hide *;
    p, b := MinimalPolicy(name, [AUTHORITY_COVERAGE], Misnamed(es, k, e)), MinimalBinding(name);
    MisnamedAccepted(name, pc, bc, es, k, e);
    MisnamedAdmits(parse, name, es, k, e, r);
    NotEnforced(parse, p, b, es, k, r);
  }

  lemma NotEnforced(parse: Compiler, p: Policy, b: Binding, es: seq<Expr>, k: nat, r: Request)
    requires k < |es| && ProofRequest(r) && Admits(parse, p, b, r, false) && !Holds(es[k], r)
    ensures !Enforces(parse, p, b, es)
  {
    hide Admits, ProofRequest, Eval;
    assert es[k] in es;
  }

  // ---------------------------------------------------------------- evidence by another account

  function EvidenceRequest(user: string): Request {
    Request(user, KOBE_GROUP, KOBE_VERSION, EVIDENCE, "", CREATE, "", "proof", Null, Obj(map[]))
  }

  lemma EvidenceIsApart()
    ensures EVIDENCE != LEASES && EVIDENCE != INSTANCES
  {
    assert EVIDENCE[0] == 'v' && LEASES[0] == 'c' && INSTANCES[0] == 'c';
  }

  /** On evidence only the first rule has something to say to a user that is not the authority. */
  lemma SharedRulesPassEvidence(user: string, r: Request, j: nat)
    requires r.resource == EVIDENCE && r.user != user && 0 < j < |CommonExpressions(user)|
    ensures Holds(CommonExpressions(user)[j], r)
  {
    var e := CommonExpressions(user)[j];
    EvidenceIsApart();
    AuthorityWritesStatusOnlyMeaning(user, r);
    AbsenceUnchangedMeaning(user, r);
    ReciprocalDisjuncts(r);
    hide EvidenceOnlyByAuthority, AuthorityWritesStatusOnly, AbsenceUnchanged, ConnectTokenReciprocal, Eval,
         UnchangedStatusField, AuthorityCannotChangeStatusField;
    if e in FieldExpressions(user) {
      var resource, f := ListedField(user, e);
      UnchangedStatusFieldMeaning(resource, f, user, r);
      AuthorityCannotChangeMeaning(resource, f, user, r);
    }
  }

  lemma FirstIsEvidence(user: string)
    ensures CommonExpressions(user) != [] && CommonExpressions(user)[0] == EvidenceOnlyByAuthority(user)
  {}

  /** Both sets, after their first rule, pass the evidence of anybody but the authority. */
  lemma OtherRulesPassEvidence(user: string, controlPlane: string, r: Request)
    requires r.resource == EVIDENCE && r.user != user
    ensures forall j :: 0 < j < |RequiredExpressions(user)| ==> Holds(RequiredExpressions(user)[j], r)
    ensures forall j :: 0 < j < |ChartExpressions(user, controlPlane)| ==>
              Holds(ChartExpressions(user, controlPlane)[j], r)
  {
    var common := CommonExpressions(user);
    forall j | 0 < j < |common| ensures Holds(common[j], r) { SharedRulesPassEvidence(user, r, j); }
    EvidenceIsApart();
    RetentionKeptMeaning(r);
    RetentionKeptOrReleasedMeaning(controlPlane, r);
    ReleaseGrantedByOperatorMeaning(LEASES, controlPlane, user, r);
    ReleaseGrantedByOperatorMeaning(INSTANCES, controlPlane, user, r);
    hide CommonExpressions, RetentionKept, RetentionKeptOrReleased, ReleaseGrantedByOperator, Eval;
  }

  lemma EvidenceOfAnother(user: string, other: string)
    requires user != other
    ensures var r := EvidenceRequest(other);
            && ProofRequest(r) && Holds(EvidenceOnlyByAuthority(other), r) && !Holds(EvidenceOnlyByAuthority(user), r)
  {
    EvidenceOnlyByAuthorityMeaning(user, EvidenceRequest(other));
    EvidenceOnlyByAuthorityMeaning(other, EvidenceRequest(other));
    hide EvidenceOnlyByAuthority, Eval;
  }

  lemma DoublingChanges(s: string, i: nat)
    requires i < |s|
    ensures Doubled(s, i) != s
  {
    assert |Doubled(s, i)| == |s| + 1;
  }

  /** Raw white space in the authority's name lets a policy be accepted that lets somebody else write
      teardown evidence: the account whose name repeats that white space. */
  lemma RawWhiteAcceptsAnother(parse: Compiler, name: string, user: string, i: nat)
    returns (p: Policy, b: Binding, r: Request)
    requires i < |user| && RawWhite(user[i])
    requires Reads(parse, RequiredExpressions(user)) && Reads(parse, [EvidenceOnlyByAuthority(Doubled(user, i))])
    ensures ValidateObjects(p, b, name, user).Ok? && ProofRequest(r) && Admits(parse, p, b, r, false)
    ensures r.user == Doubled(user, i) != user && r.resource == EVIDENCE
    ensures !Holds(EvidenceOnlyByAuthority(user), r) && !Enforces(parse, p, b, RequiredExpressions(user))
  {
    var other, es := Doubled(user, i), RequiredExpressions(user);
    r := EvidenceRequest(other);
    FirstIsEvidence(user);
    assert es[0] == EvidenceOnlyByAuthority(user) && r.user == other && r.resource == EVIDENCE;
    hide RequiredExpressions, EvidenceOnlyByAuthority, Eval, Doubled, Reads, SourceText, Normalize, ValidatePolicy,
         Admits, EvidenceRequest, ProofRequest, Enforces, CommonExpressions;
    DoublingChanges(user, i);
    EvidenceOfAnother(user, other);
    OtherRulesPassEvidence(user, user, r);
    EvidenceReadsAlike(user, i);
    p, b := MisnamedEscapes(parse, name, "ValidatingAdmissionPolicy", "ValidatingAdmissionPolicyBinding", es, 0,
                            EvidenceOnlyByAuthority(other), r);
  }

  /** Startup's acceptance means enforcement for exactly the names without raw white space. */
  lemma StartupEnforcesIff(parse: Compiler, name: string, user: string)
    requires Reads(parse, RequiredExpressions(user)) && forall u :: Reads(parse, [EvidenceOnlyByAuthority(u)])
    ensures NoRawWhite(user) <==>
            forall p, b :: ValidateObjects(p, b, name, user).Ok? ==> Enforces(parse, p, b, RequiredExpressions(user))
  {
    hide ValidateObjects, Reads, RequiredExpressions, Admits, Enforces;
    if NoRawWhite(user) {
      forall p, b | ValidateObjects(p, b, name, user).Ok? ensures Enforces(parse, p, b, RequiredExpressions(user)) {
        StartupEnforces(parse, p, b, name, user);
      }
    } else {
      var i :| 0 <= i < |user| && RawWhite(user[i]);
      var p, b, r := RawWhiteAcceptsAnother(parse, name, user, i);
    }
  }

  // ---------------------------------------------------------------- the chart's set

  /** The same failure under the chart's texts. */
  lemma RawAuthorityEscapesChart(parse: Compiler, name: string, pc: string, bc: string, user: string,
                                 controlPlane: string, i: nat) returns (p: Policy, b: Binding)
    requires i < |user| && RawWhite(user[i]) && Reads(parse, ChartExpressions(user, controlPlane))
    requires Reads(parse, [EvidenceOnlyByAuthority(Doubled(user, i))])
    ensures ValidatePolicy(p, b, name, pc, bc, [AUTHORITY_COVERAGE], Texts(ChartExpressions(user, controlPlane))).Ok?
    ensures !Enforces(parse, p, b, ChartExpressions(user, controlPlane))
  {
    var other, es := Doubled(user, i), ChartExpressions(user, controlPlane);
    var r := EvidenceRequest(other);
    FirstIsEvidence(user);
    assert es[0] == EvidenceOnlyByAuthority(user) && r.user == other && r.resource == EVIDENCE;
    hide ChartExpressions, EvidenceOnlyByAuthority, Eval, Doubled, Reads, SourceText, Normalize, ValidatePolicy, Admits,
         EvidenceRequest, ProofRequest, Enforces, CommonExpressions;
    DoublingChanges(user, i);
    EvidenceOfAnother(user, other);
    OtherRulesPassEvidence(user, controlPlane, r);
    EvidenceReadsAlike(user, i);
    p, b := MisnamedEscapes(parse, name, pc, bc, es, 0, EvidenceOnlyByAuthority(other), r);
  }

  /** A lease that carries a release annotation from the start. */
  const ANNOTATED_LEASE: Value :=
    Obj(map["metadata" := Obj(map["annotations" := Obj(map[RELEASE := Str("granted")])])])

  function AnnotatedRequest(user: string): Request {
    Request(user, KOBE_GROUP, KOBE_VERSION, LEASES, "", CREATE, "ns", "lease", Null, ANNOTATED_LEASE)
  }

  lemma AnnotatedLeaseIsTyped()
    ensures Typed(ANNOTATED_LEASE) && ReleaseAnnotation(ANNOTATED_LEASE) == Present(Str("granted"))
    ensures Child(Present(ANNOTATED_LEASE), "status") == Absent
  {
    assert "metadata"[0] == 'm' && "annotations"[0] == 'a' && "finalizers"[0] == 'f' && "status"[0] == 's';
  }

  lemma AnnotatedRequestIsFenced(user: string, controlPlane: string)
    requires user != controlPlane
    ensures var r := AnnotatedRequest(controlPlane); TypedRequest(r) && Fenced(user, r)
  {
    AnnotatedLeaseIsTyped();
    EvidenceIsApart();
    OperationsDistinct();
    hide Typed, ReleaseAnnotation, ANNOTATED_LEASE;
  }

  /** Every rule of the chart but one passes the control plane's annotated lease. */
  lemma OtherRulesPassAnnotated(user: string, controlPlane: string)
    requires user != controlPlane
    ensures var es, r := ChartExpressions(user, controlPlane), AnnotatedRequest(controlPlane);
            forall j :: 0 <= j < |es| && j != |es| - 2 ==> Holds(es[j], r)
  {
    var r := AnnotatedRequest(controlPlane);
    AnnotatedRequestIsFenced(user, controlPlane);
    CommonIsExact(user, r);
    OperationsDistinct();
    assert LEASES != INSTANCES by { assert LEASES[7] == 'l' && INSTANCES[7] == 'i'; }
    RetentionKeptOrReleasedMeaning(controlPlane, r);
    ReleaseGrantedByOperatorMeaning(INSTANCES, controlPlane, user, r);
    hide CommonExpressions, RetentionKeptOrReleased, ReleaseGrantedByOperator, Eval, Fenced, TypedRequest,
         ANNOTATED_LEASE;
  }

  lemma AnnotatedIsTheOperators(user: string, controlPlane: string, other: string)
    requires controlPlane != other && controlPlane != user
    ensures !Holds(ReleaseGrantedByOperator(LEASES, controlPlane, user), AnnotatedRequest(controlPlane))
    ensures Holds(ReleaseGrantedByOperator(LEASES, other, user), AnnotatedRequest(controlPlane))
  {
    AnnotatedLeaseIsTyped();
    OperationsDistinct();
    ReleaseGrantedByOperatorMeaning(LEASES, controlPlane, user, AnnotatedRequest(controlPlane));
    ReleaseGrantedByOperatorMeaning(LEASES, other, user, AnnotatedRequest(controlPlane));
    hide ReleaseGrantedByOperator, Eval, Unannotated, ANNOTATED_LEASE;
  }

  /** Raw white space in the control plane's name lets it grant its own quarantine releases. */
  lemma RawControlPlaneEscapesChart(parse: Compiler, name: string, pc: string, bc: string, user: string,
                                    controlPlane: string, i: nat) returns (p: Policy, b: Binding)
    requires i < |controlPlane| && RawWhite(controlPlane[i]) && controlPlane != user
    requires Reads(parse, ChartExpressions(user, controlPlane))
    requires Reads(parse, [ReleaseGrantedByOperator(LEASES, Doubled(controlPlane, i), user)])
    ensures ValidatePolicy(p, b, name, pc, bc, [AUTHORITY_COVERAGE], Texts(ChartExpressions(user, controlPlane))).Ok?
    ensures !Enforces(parse, p, b, ChartExpressions(user, controlPlane))
  {
    var other, es, r := Doubled(controlPlane, i), ChartExpressions(user, controlPlane), AnnotatedRequest(controlPlane);
    var k := |es| - 2;
    assert es[k] == ReleaseGrantedByOperator(LEASES, controlPlane, user) && ProofRequest(r);
    hide ChartExpressions, ReleaseGrantedByOperator, Eval, Doubled, Reads, SourceText, Normalize, ValidatePolicy,
         Admits, AnnotatedRequest, ProofRequest, Enforces, CommonExpressions;
    DoublingChanges(controlPlane, i);
    GrantRuleReadsAlike(LEASES, controlPlane, i, user);
    OtherRulesPassAnnotated(user, controlPlane);
    AnnotatedIsTheOperators(user, controlPlane, other);
    p, b := MisnamedEscapes(parse, name, pc, bc, es, k, ReleaseGrantedByOperator(LEASES, other, user), r);
  }

  /** Under the chart's texts too: acceptance means enforcement for exactly the names without raw white space. */
  lemma ChartEnforcesIff(parse: Compiler, name: string, pc: string, bc: string, user: string, controlPlane: string)
    requires Reads(parse, ChartExpressions(user, controlPlane))
    requires forall u :: Reads(parse, [EvidenceOnlyByAuthority(u)])
    requires forall c :: Reads(parse, [ReleaseGrantedByOperator(LEASES, c, user)])
    ensures NoRawWhite(user) && NoRawWhite(controlPlane) <==>
            var es := ChartExpressions(user, controlPlane);
            forall p, b :: ValidatePolicy(p, b, name, pc, bc, [AUTHORITY_COVERAGE], Texts(es)).Ok? ==>
              Enforces(parse, p, b, es)
  {
    hide ValidatePolicy, Reads, ChartExpressions, Enforces, Texts, RawWhite;
    if NoRawWhite(user) && NoRawWhite(controlPlane) {
      forall p, b |
        ValidatePolicy(p, b, name, pc, bc, [AUTHORITY_COVERAGE], Texts(ChartExpressions(user, controlPlane))).Ok?
        ensures Enforces(parse, p, b, ChartExpressions(user, controlPlane))
      {
        ChartEnforces(parse, p, b, name, pc, bc, user, controlPlane);
      }
    } else if !NoRawWhite(user) {
      var i :| 0 <= i < |user| && RawWhite(user[i]);
      var p, b := RawAuthorityEscapesChart(parse, name, pc, bc, user, controlPlane, i);
    } else {
      var i :| 0 <= i < |controlPlane| && RawWhite(controlPlane[i]);
      var p, b := RawControlPlaneEscapesChart(parse, name, pc, bc, user, controlPlane, i);
    }
  }
}
