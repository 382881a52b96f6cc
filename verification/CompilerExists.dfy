/**
 Everything assumed of the server's compiler holds of the reader of CEL, for all names. So no result rests on
 an assumption that nothing could meet, and for the reader the main results hold without any.
 */
module CompilerExists {
  import opened Common
  import opened Cel
  import opened AuthorityExpressions
  import opened AuthorityTexts
  import opened ExpressionText
  import opened ExpressionSource
  import opened NameVariants
  import opened PolicyValidation
  import opened CelReader
  import opened CelOperands
  import opened CelRoundTrip
  import Raw = RawNames
  import Wall = Firewall

  lemma RequiredAreRead(user: string)
    ensures Reads(Reader, RequiredExpressions(user))
  {
    var es := RequiredExpressions(user);
    hide RequiredExpressions, Writes, Reader, Means, SourceText;
    forall i | 0 <= i < |es| ensures Means(Compile(Reader, SourceText(es[i])), es[i]) {
      RequiredWrite(user, es[i]);
      ReaderReads(es[i], {user});
    }
  }

  lemma ChartIsRead(user: string, controlPlane: string)
    ensures Reads(Reader, ChartExpressions(user, controlPlane))
  {
    var es := ChartExpressions(user, controlPlane);
    hide ChartExpressions, Writes, Reader, Means, SourceText;
    forall i | 0 <= i < |es| ensures Means(Compile(Reader, SourceText(es[i])), es[i]) {
      ChartWrite(user, controlPlane, es[i]);
      ReaderReads(es[i], {user, controlPlane});
    }
  }

  lemma EvidenceRuleIsRead(user: string)
    ensures Reads(Reader, [EvidenceOnlyByAuthority(user)])
  {
    FirstRulesWrite(user, {user});
    hide Writes, Reader, Means, SourceText, EvidenceOnlyByAuthority;
    ReaderReads(EvidenceOnlyByAuthority(user), {user});
  }

  lemma GrantRuleIsRead(controlPlane: string, user: string)
    ensures Reads(Reader, [ReleaseGrantedByOperator(LEASES, controlPlane, user)])
  {
    FixedLiterals();
    hide Writes, Reader, Means, SourceText, ReleaseGrantedByOperator, LiteralText;
    GrantRuleWrites(LEASES, controlPlane, user, {user, controlPlane});
    ReaderReads(ReleaseGrantedByOperator(LEASES, controlPlane, user), {user, controlPlane});
  }

  lemma FirewallRulesAreRead(user: string, namespace: string)
    ensures Reads(Reader, Wall.FirewallExpressions(user, namespace))
  {
    var es := Wall.FirewallExpressions(user, namespace);
    hide Wall.FirewallExpressions, Writes, Reader, Means, SourceText;
    forall i | 0 <= i < |es| ensures Means(Compile(Reader, SourceText(es[i])), es[i]) {
      Wall.FirewallWrites(user, namespace, es[i]);
      ReaderReads(es[i], {user, namespace});
    }
  }

  // ---------------------------------------------------------------- the firewall, with any last literal

  lemma HeadTokens(user: string, a: Expr, attr: Attribute)
    ensures var x := Or(IsNot(Username, user), a);
            Wall.NameHead(user, a, attr) == Tokens(x) + Infix("||") + ([Bare(Path(attr))] + Infix("!="))
  {
    var y := IsNot(Username, user);
    NameTokens(Username, user);
    DisjunctionTokens(y, a);
    hide Tokens, SecondOperand, Infix, Path, IsNot;
    var head, second, path := Wall.UserHead() + [Json(user)], SecondOperand(a), [Bare(Path(attr))] + Infix("!=");
    var or := Infix("||");
    assert head + (or + second + or + path) == head + or + second + or + path;
  }

  lemma HeadText(user: string, a: Expr, attr: Attribute, literal: string)
    ensures Render(Wall.NameHead(user, a, attr)) + literal ==
            EndingText(Or(IsNot(Username, user), a), attr, literal)
  {
    var x := Or(IsNot(Username, user), a);
    var path := [Bare(Path(attr))] + Infix("!=");
    HeadTokens(user, a, attr);
    assert path == [Bare(Path(attr))] + Infix("!=") + [];
    assert Render([]) == "";
    hide Tokens, Render, Infix, Path, IsNot, Wall.NameHead;
    InfixText(Tokens(x), "||", path);
    InfixText([Bare(Path(attr))], "!=", []);
    OneToken(Bare(Path(attr)));
    BetweenThen(SourceText(x), "||", Between(Path(attr), "!=", ""), literal);
    BetweenThen(Path(attr), "!=", "", literal);
    assert "" + literal == literal;
  }

  lemma RuleEndingIsRead(user: string, a: Expr, attr: Attribute, names: set<string>, e: string -> Expr)
    requires Writes(Or(IsNot(Username, user), a), names)
    requires forall n :: e(n) == Or(Or(IsNot(Username, user), a), IsNot(attr, n))
    ensures Wall.ReadsEnding(Reader, Render(Wall.NameHead(user, a, attr)), e)
  {
    var x, pre := Or(IsNot(Username, user), a), Render(Wall.NameHead(user, a, attr));
    hide Writes, Reader, Means, EndingText, Closable, Enclosed, Render, Wall.NameHead;
    forall body | Closable(body) && Compile(Reader, pre + Enclosed(body)).Some?
      ensures exists n :: Means(Compile(Reader, pre + Enclosed(body)), e(n))
    {
      HeadText(user, a, attr, Enclosed(body));
      EndingCompiles(x, attr, body, names);
      var n :| Means(Compile(Reader, pre + Enclosed(body)), Or(x, Not(Eq(Attr(attr), Lit(Str(n))))));
      assert e(n) == Or(x, Not(Eq(Attr(attr), Lit(Str(n)))));
    }
  }

  lemma HeadsWrite(user: string)
    ensures Writes(Or(IsNot(Username, user), Wall.ClusterScoped()), {user})
    ensures Writes(Or(IsNot(Username, user), IsNot(Resource, Wall.NAMESPACES)), {user})
  {
    Wall.FirewallLiterals();
    hide LiteralText, Writes;
    IsWrites(Username, user, {user});
    IsWrites(Resource, Wall.NAMESPACES, {user});
    Wall.ClusterScopedWrites({user});
    hide IsNot, Wall.ClusterScoped;
    PairWrites(IsNot(Username, user), Wall.ClusterScoped(), {user});
    PairWrites(IsNot(Username, user), IsNot(Resource, Wall.NAMESPACES), {user});
  }

  /** What the firewall's results assume of a compiler is met. */
  lemma FirewallIsRead(controlPlane: string)
    ensures Wall.FirewallReader(Reader, controlPlane)
  {
    HeadsWrite(controlPlane);
    hide Reads, Writes, Reader, Wall.ReadsEnding, Wall.FirewallExpressions, Render, Wall.NameHead;
    forall user, namespace ensures Reads(Reader, Wall.FirewallExpressions(user, namespace)) {
      FirewallRulesAreRead(user, namespace);
    }
    RuleEndingIsRead(controlPlane, Wall.ClusterScoped(), Namespace, {controlPlane},
                     namespace => Wall.OutsideNamespace(controlPlane, namespace));
    RuleEndingIsRead(controlPlane, IsNot(Resource, Wall.NAMESPACES), Name, {controlPlane},
                     namespace => Wall.NotTheNamespace(controlPlane, namespace));
  }

  // ---------------------------------------------------------------- results without assumptions

  /** Read with the reader: acceptance at startup means enforcement for exactly the names without raw white space. */
  lemma AcceptedMeansEnforcedIff(name: string, user: string)
    ensures NoRawWhite(user) <==>
            forall p, b :: ValidateObjects(p, b, name, user).Ok? ==> Enforces(Reader, p, b, RequiredExpressions(user))
  {
    hide Reads, Reader, NoRawWhite, ValidateObjects, Enforces, RequiredExpressions;
    RequiredAreRead(user);
    forall u ensures Reads(Reader, [EvidenceOnlyByAuthority(u)]) { EvidenceRuleIsRead(u); }
    Raw.StartupEnforcesIff(Reader, name, user);
  }

  /** And the same for the chart's set. */
  lemma AcceptedChartMeansEnforcedIff(name: string, pc: string, bc: string, user: string, controlPlane: string)
    ensures NoRawWhite(user) && NoRawWhite(controlPlane) <==>
            var es := ChartExpressions(user, controlPlane);
            forall p, b :: ValidatePolicy(p, b, name, pc, bc, [AUTHORITY_COVERAGE], Texts(es)).Ok? ==>
              Enforces(Reader, p, b, es)
  {
    hide Reads, Reader, NoRawWhite, ValidatePolicy, Enforces, ChartExpressions, ReleaseGrantedByOperator,
         EvidenceOnlyByAuthority;
    ChartIsRead(user, controlPlane);
    forall u ensures Reads(Reader, [EvidenceOnlyByAuthority(u)]) { EvidenceRuleIsRead(u); }
    forall c ensures Reads(Reader, [ReleaseGrantedByOperator(LEASES, c, user)]) { GrantRuleIsRead(c, user); }
    Raw.ChartEnforcesIff(Reader, name, pc, bc, user, controlPlane);
  }

  /** And for the firewall: what every accepted policy refuses the control plane, for all names. */
  lemma AcceptedFirewallRefusesExactly(name: string, controlPlane: string, namespace: string, r: Request)
    requires r.user == controlPlane
    ensures (forall p, b, exempt :: Wall.ValidateFirewallObjects(p, b, name, controlPlane, namespace).Ok? ==>
               !Admits(Reader, p, b, r, exempt))
            <==> Wall.Promised(r, controlPlane, namespace)
  {
    hide Reader, Wall.ValidateFirewallObjects, Admits, Wall.Promised, Wall.FirewallReader;
    FirewallIsRead(controlPlane);
    Wall.FirewallRefusesExactly(Reader, name, controlPlane, namespace, r);
  }
}
