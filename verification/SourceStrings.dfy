/**
 The operator's texts, word for word: what each expression of the model is spelled as is the very string the
 operator formats, so comparing texts in the model is comparing the operator's own.
 */
module SourceStrings {
  import opened Common
  import opened Cel
  import opened AuthorityExpressions
  import opened AuthorityTexts
  import opened ExpressionText
  import opened ExpressionSource
  import opened CelOperands
  import opened CelRoundTrip
  import Wall = Firewall

  // ---------------------------------------------------------------- joined pieces

  function Any(ps: seq<string>): string
    requires ps != []
  {
    if |ps| == 1 then ps[0] else Any(ps[..|ps| - 1]) + " || " + ps[|ps| - 1]
  }

  function All(ps: seq<string>): string
    requires ps != []
  {
    if |ps| == 1 then ps[0] else All(ps[..|ps| - 1]) + " && " + ps[|ps| - 1]
  }

  function InParens(s: string): string { "(" + s + ")" }

  /** An operand with its parentheses, where it has any. */
  function Piece(e: Expr, grouped: bool): string { if grouped then InParens(SourceText(e)) else SourceText(e) }

  lemma PieceIsOperand(e: Expr, grouped: bool)
    ensures OperandText(e, grouped) == Piece(e, grouped)
  {
    hide SourceText;
    ConcatAssociative("(", SourceText(e), ")");
  }

  lemma BetweenIs(a: string, op: string, b: string)
    ensures Between(a, op, b) == a + (" " + op + " ") + b
  {}

  lemma Operators()
    ensures " " + "||" + " " == " || " && " " + "&&" + " " == " && " && " " + "==" + " " == " == "
    ensures " " + "!=" + " " == " != " && " " + "?" + " " == " ? " && " " + ":" + " " == " : "
    ensures " " + "in" + " " == " in "
  {}

  function OrPiece(e: Expr): string { Piece(e, e.Or? || GroupedInOr(e)) }
  function AndPiece(e: Expr): string { Piece(e, GroupedInAnd(e)) }

  lemma OrString(a: Expr, b: Expr)
    ensures SourceText(Or(a, b)) == Piece(a, GroupedInOr(a)) + " || " + OrPiece(b)
  {
    OrText(a, b);
    Operators();
    hide SourceText;
    PieceIsOperand(a, GroupedInOr(a));
    PieceIsOperand(b, b.Or? || GroupedInOr(b));
    hide OperandText;
    BetweenIs(Piece(a, GroupedInOr(a)), "||", OrPiece(b));
  }

  lemma AndString(a: Expr, b: Expr)
    ensures SourceText(And(a, b)) == AndPiece(a) + " && " + AndPiece(b)
  {
    AndText(a, b);
    Operators();
    hide SourceText;
    PieceIsOperand(a, GroupedInAnd(a));
    PieceIsOperand(b, GroupedInAnd(b));
    hide OperandText;
    BetweenIs(AndPiece(a), "&&", AndPiece(b));
  }

  lemma Any2(a: Expr, b: Expr)
    requires !a.Or?
    ensures SourceText(Or(a, b)) == Any([OrPiece(a), OrPiece(b)])
  {
    OrString(a, b);
    hide SourceText;
    assert [OrPiece(a), OrPiece(b)][..1] == [OrPiece(a)];
  }

  lemma AnyPush(x: Expr, ps: seq<string>, b: Expr)
    requires ps != [] && x.Or? && SourceText(x) == Any(ps)
    ensures SourceText(Or(x, b)) == Any(ps + [OrPiece(b)])
  {
    OrString(x, b);
    hide SourceText, OrPiece;
    var all := ps + [OrPiece(b)];
    assert all[..|all| - 1] == ps && all[|all| - 1] == OrPiece(b);
  }

  lemma Any3(a: Expr, b: Expr, c: Expr)
    requires !a.Or?
    ensures SourceText(Or(Or(a, b), c)) == Any([OrPiece(a), OrPiece(b), OrPiece(c)])
  {
    Any2(a, b);
    hide SourceText, OrPiece, Any;
    AnyPush(Or(a, b), [OrPiece(a), OrPiece(b)], c);
    assert [OrPiece(a), OrPiece(b)] + [OrPiece(c)] == [OrPiece(a), OrPiece(b), OrPiece(c)];
  }

  lemma Any4(a: Expr, b: Expr, c: Expr, d: Expr)
    requires !a.Or?
    ensures SourceText(Or(Or(Or(a, b), c), d)) == Any([OrPiece(a), OrPiece(b), OrPiece(c), OrPiece(d)])
  {
    Any3(a, b, c);
    hide SourceText, OrPiece, Any;
    var ps := [OrPiece(a), OrPiece(b), OrPiece(c)];
    AnyPush(Or(Or(a, b), c), ps, d);
    assert ps + [OrPiece(d)] == [OrPiece(a), OrPiece(b), OrPiece(c), OrPiece(d)];
  }

  lemma Any6(a: Expr, b: Expr, c: Expr, d: Expr, e: Expr, f: Expr)
    requires !a.Or?
    ensures SourceText(Or(Or(Or(Or(Or(a, b), c), d), e), f)) ==
            Any([OrPiece(a), OrPiece(b), OrPiece(c), OrPiece(d), OrPiece(e), OrPiece(f)])
  {
    Any4(a, b, c, d);
    hide SourceText, OrPiece, Any;
    var x := Or(Or(Or(a, b), c), d);
    var ps := [OrPiece(a), OrPiece(b), OrPiece(c), OrPiece(d)];
    AnyPush(x, ps, e);
    AnyPush(Or(x, e), ps + [OrPiece(e)], f);
    assert ps + [OrPiece(e)] + [OrPiece(f)] ==
           [OrPiece(a), OrPiece(b), OrPiece(c), OrPiece(d), OrPiece(e), OrPiece(f)];
  }

  lemma All2(a: Expr, b: Expr)
    ensures SourceText(And(a, b)) == All([AndPiece(a), AndPiece(b)])
  {
    AndString(a, b);
    hide SourceText, AndPiece;
    assert [AndPiece(a), AndPiece(b)][..1] == [AndPiece(a)];
  }

  lemma AllPush(x: Expr, ps: seq<string>, b: Expr)
    requires ps != [] && x.And? && SourceText(x) == All(ps)
    ensures SourceText(And(x, b)) == All(ps + [AndPiece(b)])
  {
    AndString(x, b);
    assert AndPiece(x) == SourceText(x);
    hide SourceText, AndPiece;
    var all := ps + [AndPiece(b)];
    assert all[..|all| - 1] == ps && all[|all| - 1] == AndPiece(b);
  }

  /** A conjunction on the right reads on without parentheses. */
  lemma AllJoin(x: Expr, ps: seq<string>, b: Expr, qs: seq<string>)
    requires ps != [] && qs != [] && AndPiece(x) == All(ps) && b.And? && SourceText(b) == All(qs)
    ensures SourceText(And(x, b)) == All(ps + qs)
  {
    AndString(x, b);
    assert AndPiece(b) == SourceText(b);
    hide SourceText, AndPiece;
    AllAppend(ps, qs);
  }

  lemma {:induction false} AllAppend(ps: seq<string>, qs: seq<string>)
    requires ps != [] && qs != []
    ensures All(ps + qs) == All(ps) + " && " + All(qs)
    decreases |qs|
  {
    var all, init, last := ps + qs, qs[..|qs| - 1], qs[|qs| - 1];
    assert all[..|all| - 1] == ps + init && all[|all| - 1] == last;
    if init == [] {
      assert ps + init == ps;
    } else {
      AllAppend(ps, init);
      assert All(ps) + " && " + (All(init) + " && " + last) == All(ps) + " && " + All(init) + " && " + last;
    }
  }

  // ---------------------------------------------------------------- comparisons

  function Same(a: string, b: string): string { a + " == " + b }
  function Differs(a: string, b: string): string { a + " != " + b }
  function Ternary(t: string, a: string, b: string): string { t + " ? " + a + " : " + b }
  function InQuotes(s: string): string { "'" + s + "'" }

  lemma Paths()
    ensures Path(Resource) == "request.resource.resource" && Path(Username) == "request.userInfo.username"
    ensures Path(Operation) == "request.operation"
  {}

  lemma RarePaths()
    ensures Path(Group) == "request.resource.group" && Path(SubResource) == "request.subResource"
    ensures Path(Namespace) == "request.namespace" && Path(Name) == "request.name"
  {}

  lemma LiteralString(s: string)
    ensures SourceText(Lit(Str(s))) == InQuotes(s)
  {
    StringTokenText(s, false);
    assert Tokens(Lit(Str(s))) == [StringToken(s, false)];
  }

  lemma AttrString(a: Attribute)
    ensures SourceText(Attr(a)) == Path(a)
  {
    OneToken(Bare(Path(a)));
  }

  lemma IsString(a: Attribute, s: string)
    ensures var literal := if a.Username? || a.Namespace? || a.Name? then Quoted(s) else InQuotes(s);
            SourceText(Is(a, s)) == Same(Path(a), literal) && SourceText(IsNot(a, s)) == Differs(Path(a), literal)
  {
    var named := Named(Attr(a));
    EqText(Is(a, s));
    Operators();
    AttrString(a);
    StringTokenText(s, named);
    assert Literally(Str(s), named) == [StringToken(s, named)];
    LiteralString(s);
    assert RightText(Attr(a), Lit(Str(s))) == StringText(s, named);
    hide SourceText, Path, RightText, Render, Quoted;
    BetweenIs(Path(a), "==", StringText(s, named));
    BetweenIs(Path(a), "!=", StringText(s, named));
  }

  lemma EqString(a: Expr, b: Expr)
    requires !Named(a)
    ensures SourceText(Eq(a, b)) == Same(Piece(a, a.Cond?), Piece(b, b.Cond?))
    ensures SourceText(Ne(a, b)) == Differs(Piece(a, a.Cond?), Piece(b, b.Cond?))
  {
    EqText(Eq(a, b));
    Operators();
    hide SourceText;
    PieceIsOperand(a, a.Cond?);
    PieceIsOperand(b, b.Cond?);
    hide OperandText, Piece;
    BetweenIs(Piece(a, a.Cond?), "==", Piece(b, b.Cond?));
    BetweenIs(Piece(a, a.Cond?), "!=", Piece(b, b.Cond?));
  }

  lemma NotString(x: Expr)
    requires !x.Eq?
    ensures SourceText(Not(x)) == "!" + Piece(x, !x.Has? && !x.ExistsEq?)
  {
    NotText(x);
    hide SourceText;
    PieceIsOperand(x, !x.Has? && !x.ExistsEq?);
  }

  lemma CondString(t: Expr, a: Expr, b: Expr)
    ensures SourceText(Cond(t, a, b)) == Ternary(SourceText(t), Piece(a, a.Or?), Piece(b, b.Or?))
  {
    CondText(t, a, b);
    Operators();
    hide SourceText;
    PieceIsOperand(a, a.Or?);
    PieceIsOperand(b, b.Or?);
    hide OperandText, Piece;
    BetweenIs(SourceText(t), "?", Piece(a, a.Or?));
    BetweenIs(SourceText(t) + " ? " + Piece(a, a.Or?), ":", Piece(b, b.Or?));
  }

  // ---------------------------------------------------------------- paths

  function Dot(path: string, f: string): string { path + "." + f }
  function Given(path: string, f: string): string { "has(" + path + "." + f + ")" }
  function Lacks(path: string, f: string): string { "!" + Given(path, f) }

  lemma SidesText()
    ensures SourceText(Object) == "object" && SourceText(OldObject) == "oldObject" && SourceText(Lit(Null)) == "null"
  {
    SideText(Object);
    SideText(OldObject);
    OneToken(Bare("null"));
  }

  lemma DotString(x: Expr, f: string, path: string)
    requires Identifier(f) && SourceText(x) == path
    ensures SourceText(Select(x, f)) == Dot(path, f)
  {
    SelectText(x, f);
    hide SourceText, Identifier;
    ConcatAssociative(path, ".", f);
  }

  lemma GivenString(x: Expr, f: string, path: string)
    requires SourceText(x) == path
    ensures SourceText(Has(x, f)) == Given(path, f)
  {
    HasText(x, f);
    hide SourceText;
    assert "has(" + (path + ("." + f + ")")) == "has(" + path + "." + f + ")";
  }

  lemma LacksString(x: Expr, f: string, path: string)
    requires SourceText(x) == path
    ensures SourceText(Not(Has(x, f))) == Lacks(path, f)
  {
    hide SourceText, Given;
    GivenString(x, f, path);
    NotString(Has(x, f));
  }

  lemma StatusStrings()
    ensures SourceText(Object) == "object" && SourceText(Status(Object)) == "object.status"
    ensures SourceText(OldObject) == "oldObject" && SourceText(Status(OldObject)) == "oldObject.status"
  {
    SidesText();
    StatusWords();
    hide SourceText, Identifier;
    DotString(Object, "status", "object");
    DotString(OldObject, "status", "oldObject");
  }

  // ---------------------------------------------------------------- protected fields

  function MissingText(w: string, status: string, f: string): string {
    Any([Lacks(w, "status"), Lacks(status, f)])
  }

  function SameValueText(f: string): string {
    All([Given("oldObject", "status"), Given("oldObject.status", f),
         Given("object", "status"), Given("object.status", f),
         Same(Dot("object.status", f), Dot("oldObject.status", f))])
  }

  function FieldUnchangedText(f: string): string {
    var before, after := MissingText("oldObject", "oldObject.status", f), MissingText("object", "object.status", f);
    Ternary(Same("oldObject", "null"), InParens(after),
            InParens(Any([InParens(All([InParens(before), InParens(after)])), InParens(SameValueText(f))])))
  }

  lemma MissingString(w: Expr, path: string, status: string, f: string)
    requires SourceText(w) == path && SourceText(Status(w)) == status
    ensures SourceText(Missing(w, f)) == MissingText(path, status, f)
  {
    LacksString(w, "status", path);
    LacksString(Status(w), f, status);
    Any2(Not(Has(w, "status")), Not(Has(Status(w), f)));
    hide SourceText, Lacks, Any;
  }

  lemma CarriedStrings(f: string)
    requires Identifier(f)
    ensures SourceText(Carries(OldObject, f)) == All([Given("oldObject", "status"), Given("oldObject.status", f)])
    ensures SourceText(Has(Object, "status")) == Given("object", "status")
    ensures SourceText(Has(Status(Object), f)) == Given("object.status", f)
    ensures SourceText(Eq(Select(Status(Object), f), Select(Status(OldObject), f))) ==
            Same(Dot("object.status", f), Dot("oldObject.status", f))
  {
    StatusStrings();
    hide SourceText, Identifier;
    GivenString(OldObject, "status", "oldObject");
    GivenString(Status(OldObject), f, "oldObject.status");
    All2(Has(OldObject, "status"), Has(Status(OldObject), f));
    GivenString(Object, "status", "object");
    GivenString(Status(Object), f, "object.status");
    DotString(Status(Object), f, "object.status");
    DotString(Status(OldObject), f, "oldObject.status");
    EqString(Select(Status(Object), f), Select(Status(OldObject), f));
    hide Given, Dot, All;
  }

  lemma SameValueString(f: string)
    requires Identifier(f)
    ensures SourceText(SameValue(f)) == SameValueText(f)
  {
    CarriedStrings(f);
    hide SourceText, Given, Dot, All, Identifier;
    var ps := [Given("oldObject", "status"), Given("oldObject.status", f)];
    var x := And(Carries(OldObject, f), Has(Object, "status"));
    AllPush(Carries(OldObject, f), ps, Has(Object, "status"));
    AllPush(x, ps + [Given("object", "status")], Has(Status(Object), f));
    AllPush(And(x, Has(Status(Object), f)), ps + [Given("object", "status")] + [Given("object.status", f)],
            Eq(Select(Status(Object), f), Select(Status(OldObject), f)));
    var last := Same(Dot("object.status", f), Dot("oldObject.status", f));
    assert ps + [Given("object", "status")] + [Given("object.status", f)] + [last]
        == [Given("oldObject", "status"), Given("oldObject.status", f),
            Given("object", "status"), Given("object.status", f), last];
  }

  lemma SameValueGrouped(f: string)
    ensures GroupedInOr(SameValue(f))
  {
    var carried := Carries(OldObject, f);
    assert Leftmost(carried) == Has(OldObject, "status");
    assert Leftmost(And(carried, Has(Object, "status"))) == Leftmost(carried);
  }

  lemma FieldUnchangedString(f: string)
    requires Identifier(f)
    ensures SourceText(FieldUnchanged(f)) == FieldUnchangedText(f)
  {
    StatusStrings();
    SidesText();
    hide SourceText, Identifier;
    var before, after, same := Missing(OldObject, f), Missing(Object, f), SameValue(f);
    MissingString(OldObject, "oldObject", "oldObject.status", f);
    MissingString(Object, "object", "object.status", f);
    SameValueString(f);
    SameValueGrouped(f);
    EqString(OldObject, Lit(Null));
    All2(before, after);
    Any2(And(before, after), same);
    CondString(Eq(OldObject, Lit(Null)), after, Or(And(before, after), same));
    assert Leftmost(And(before, after)) == Leftmost(before) == before;
    hide MissingText, SameValueText, Any, All, InParens, Ternary, Same;
  }

  /** The four-part rule of one protected field, for the test `who` on the user. */
  function FieldRuleText(resource: string, who: string, f: string): string {
    Any([Differs("request.resource.resource", InQuotes(resource)), who,
         Same("request.operation", InQuotes("DELETE")), InParens(FieldUnchangedText(f))])
  }

  lemma FieldRuleString(resource: string, who: Expr, f: string)
    requires Identifier(f) && !who.Or? && !GroupedInOr(who)
    ensures SourceText(Or(Or(Or(IsNot(Resource, resource), who), Is(Operation, DELETE)), FieldUnchanged(f))) ==
            FieldRuleText(resource, SourceText(who), f)
  {
    Paths();
    hide Path, SourceText, FieldUnchangedText, Any, Identifier, Same, Differs, InQuotes;
    IsString(Resource, resource);
    IsString(Operation, DELETE);
    FieldUnchangedString(f);
    Any4(IsNot(Resource, resource), who, Is(Operation, DELETE), FieldUnchanged(f));
  }

  lemma FieldRuleStrings(resource: string, f: string, user: string)
    requires Identifier(f)
    ensures SourceText(UnchangedStatusField(resource, f, user)) ==
            FieldRuleText(resource, Same("request.userInfo.username", Quoted(user)), f)
    ensures SourceText(AuthorityCannotChangeStatusField(resource, f, user)) ==
            FieldRuleText(resource, Differs("request.userInfo.username", Quoted(user)), f)
  {
    Paths();
    hide Path;
    IsString(Username, user);
    hide SourceText, FieldRuleText, Same, Differs, Quoted, FieldUnchanged;
    FieldRuleString(resource, Is(Username, user), f);
    FieldRuleString(resource, IsNot(Username, user), f);
  }

  // ---------------------------------------------------------------- identities and lists

  function Comma(a: string, b: string): string { a + ", " + b }
  function InBrackets(s: string): string { "[" + s + "]" }

  lemma CommaIs(a: string, b: string)
    ensures a + ("," + (" " + b)) == Comma(a, b)
  {
    assert "," + " " == ", ";
    assert a + ("," + (" " + b)) == a + ("," + " ") + b;
  }

  lemma OneItem(a: string, named: bool)
    requires named || LiteralText(a)
    ensures Render(Items([Str(a)], named)) == StringText(a, named)
  {
    ItemsText([Str(a)], named);
  }

  lemma MoreItems(a: string, vs: seq<Value>, named: bool)
    requires (named || LiteralText(a)) && vs != [] && Strings(vs, named)
    ensures Strings([Str(a)] + vs, named)
    ensures Render(Items([Str(a)] + vs, named)) == Comma(StringText(a, named), Render(Items(vs, named)))
  {
    var all := [Str(a)] + vs;
    assert all[1..] == vs;
    hide Items, Render, StringText, LiteralText;
    ItemsText(all, named);
    CommaIs(StringText(a, named), Render(Items(vs, named)));
  }

  lemma PairString(a: string, b: string, named: bool)
    requires named || (LiteralText(a) && LiteralText(b))
    ensures Strings([Str(a), Str(b)], named)
    ensures Render(Literally(List([Str(a), Str(b)]), named)) ==
            InBrackets(Comma(StringText(a, named), StringText(b, named)))
  {
    hide Items, Render, StringText, LiteralText, Literally;
    OneItem(b, named);
    MoreItems(a, [Str(b)], named);
    assert [Str(a)] + [Str(b)] == [Str(a), Str(b)];
    ListText([Str(a), Str(b)], named);
    ConcatAssociative("[", Render(Items([Str(a), Str(b)], named)), "]");
  }

  lemma TripleString(a: string, b: string, c: string, named: bool)
    requires named || (LiteralText(a) && LiteralText(b) && LiteralText(c))
    ensures Strings([Str(a), Str(b), Str(c)], named)
    ensures Render(Literally(List([Str(a), Str(b), Str(c)]), named)) ==
            InBrackets(Comma(StringText(a, named), Comma(StringText(b, named), StringText(c, named))))
  {
    hide Items, Render, StringText, LiteralText, Literally;
    OneItem(c, named);
    MoreItems(b, [Str(c)], named);
    MoreItems(a, [Str(b)] + [Str(c)], named);
    assert [Str(a)] + ([Str(b)] + [Str(c)]) == [Str(a), Str(b), Str(c)];
    ListText([Str(a), Str(b), Str(c)], named);
    ConcatAssociative("[", Render(Items([Str(a), Str(b), Str(c)], named)), "]");
  }

  function Within(a: string, b: string): string { a + " in " + b }

  lemma AmongString(a: Attribute, vs: seq<Value>)
    requires Strings(vs, Named(Attr(a)))
    ensures SourceText(In(Attr(a), Lit(List(vs)))) == Within(Path(a), Render(Literally(List(vs), Named(Attr(a)))))
  {
    InText(Attr(a), Lit(List(vs)));
    Operators();
    AttrString(a);
    assert Tokens(Lit(List(vs))) == Literally(List(vs), false);
    assert RightText(Attr(a), Lit(List(vs))) == Render(Literally(List(vs), Named(Attr(a))));
    hide SourceText, Path, Render, Literally, RightText;
    BetweenIs(Path(a), "in", Render(Literally(List(vs), Named(Attr(a)))));
  }

  function NotWithin(a: string, b: string): string { "!" + InParens(Within(a, b)) }

  lemma NotAmongString(a: Attribute, vs: seq<Value>)
    requires Strings(vs, Named(Attr(a)))
    ensures SourceText(Not(In(Attr(a), Lit(List(vs))))) ==
            NotWithin(Path(a), Render(Literally(List(vs), Named(Attr(a)))))
  {
    hide SourceText, Path, Render, Literally, InParens, Within, Strings;
    AmongString(a, vs);
    NotString(In(Attr(a), Lit(List(vs))));
  }

  function EvidenceText(user: string): string {
    Any([Differs("request.resource.resource", InQuotes("verifiedteardownevidence")),
         Same("request.userInfo.username", Quoted(user))])
  }

  lemma EvidenceString(user: string)
    ensures SourceText(EvidenceOnlyByAuthority(user)) == EvidenceText(user)
  {
    Paths();
    hide Path;
    hide SourceText, Any, Same, Differs, InQuotes, Quoted;
    IsString(Resource, EVIDENCE);
    IsString(Username, user);
    Any2(IsNot(Resource, EVIDENCE), Is(Username, user));
  }

  function StatusOnlyText(user: string): string {
    Any([Differs("request.userInfo.username", Quoted(user)),
         NotWithin("request.resource.resource",
                   InBrackets(Comma(InQuotes("clusterleases"), InQuotes("clusterinstances")))),
         Same("request.subResource", InQuotes("status"))])
  }

  lemma StatusOnlyString(user: string)
    ensures SourceText(AuthorityWritesStatusOnly(user)) == StatusOnlyText(user)
  {
    Paths();
    RarePaths();
    hide Path;
    hide SourceText, Any, Same, Differs, Quoted, NotWithin, InBrackets, Comma, Render, Literally;
    var kinds := [Str(LEASES), Str(INSTANCES)];
    FixedLiterals();
    hide LiteralText;
    PairString(LEASES, INSTANCES, false);
    NotAmongString(Resource, kinds);
    IsString(Username, user);
    IsString(SubResource, "status");
    Any3(IsNot(Username, user), Not(In(Attr(Resource), Lit(List(kinds)))), Is(SubResource, "status"));
  }

  // ---------------------------------------------------------------- the firewall

  function OutsideNamespaceText(user: string, namespace: string): string {
    Any([Differs("request.userInfo.username", Quoted(user)),
         Within("request.resource.resource",
                InBrackets(Comma(InQuotes("namespaces"),
                                 Comma(InQuotes("clusterroles"), InQuotes("clusterrolebindings"))))),
         Differs("request.namespace", Quoted(namespace))])
  }

  lemma OutsideNamespaceString(user: string, namespace: string)
    ensures SourceText(Wall.OutsideNamespace(user, namespace)) == OutsideNamespaceText(user, namespace)
  {
    Paths();
    RarePaths();
    hide Path;
    hide SourceText, Any, Same, Differs, Quoted, Within, InBrackets, Comma, Render, Literally;
    var kinds := [Str(Wall.NAMESPACES), Str(Wall.CLUSTER_ROLES), Str(Wall.CLUSTER_ROLE_BINDINGS)];
    Wall.FirewallLiterals();
    hide LiteralText;
    TripleString(Wall.NAMESPACES, Wall.CLUSTER_ROLES, Wall.CLUSTER_ROLE_BINDINGS, false);
    AmongString(Resource, kinds);
    IsString(Username, user);
    IsString(Namespace, namespace);
    Any3(IsNot(Username, user), In(Attr(Resource), Lit(List(kinds))), IsNot(Namespace, namespace));
  }

  function NotTheNamespaceText(user: string, namespace: string): string {
    Any([Differs("request.userInfo.username", Quoted(user)),
         Differs("request.resource.resource", InQuotes("namespaces")),
         Differs("request.name", Quoted(namespace))])
  }

  lemma NotTheNamespaceString(user: string, namespace: string)
    ensures SourceText(Wall.NotTheNamespace(user, namespace)) == NotTheNamespaceText(user, namespace)
  {
    Paths();
    RarePaths();
    hide Path;
    hide SourceText, Any, Same, Differs, InQuotes, Quoted;
    IsString(Username, user);
    IsString(Resource, Wall.NAMESPACES);
    IsString(Name, namespace);
    Any3(IsNot(Username, user), IsNot(Resource, Wall.NAMESPACES), IsNot(Name, namespace));
  }

  function NotClusterRbacText(user: string): string {
    Any([Differs("request.userInfo.username", Quoted(user)),
         Differs("request.resource.group", InQuotes("rbac.authorization.k8s.io")),
         NotWithin("request.resource.resource",
                   InBrackets(Comma(InQuotes("clusterroles"), InQuotes("clusterrolebindings"))))])
  }

  lemma NotClusterRbacString(user: string)
    ensures SourceText(Wall.NotClusterRbac(user)) == NotClusterRbacText(user)
  {
    Paths();
    RarePaths();
    hide Path;
    hide SourceText, Any, Same, Differs, Quoted, NotWithin, InBrackets, Comma, Render, Literally;
    var kinds := [Str(Wall.CLUSTER_ROLES), Str(Wall.CLUSTER_ROLE_BINDINGS)];
    Wall.FirewallLiterals();
    hide LiteralText;
    PairString(Wall.CLUSTER_ROLES, Wall.CLUSTER_ROLE_BINDINGS, false);
    NotAmongString(Resource, kinds);
    IsString(Username, user);
    IsString(Group, Wall.RBAC_GROUP);
    assert Wall.RBAC_GROUP == "rbac.authorization.k8s.io";
    Any3(IsNot(Username, user), IsNot(Group, Wall.RBAC_GROUP), Not(In(Attr(Resource), Lit(List(kinds)))));
  }

  // ---------------------------------------------------------------- connect tokens

  function TokenFieldText(f: string): string {
    Same(Dot("object.status.connectTokenCreation.identity", f), Dot("object.status.binding.connectToken", f))
  }

  function TokenIdentityText(): string {
    All([TokenFieldText("apiVersion"), TokenFieldText("kind"), TokenFieldText("name"), TokenFieldText("uid"),
         InParens(Same(Given("object.status.connectTokenCreation.identity", "namespace"),
                       Given("object.status.binding.connectToken", "namespace"))),
         InParens(Any([Lacks("object.status.connectTokenCreation.identity", "namespace"),
                       TokenFieldText("namespace")]))])
  }

  function TokenPairedText(): string {
    All([Given("object.status", "binding"),
         InParens(Same(Given("object.status.connectTokenCreation", "identity"),
                       Given("object.status.binding", "connectToken"))),
         InParens(Any([Lacks("object.status.connectTokenCreation", "identity"), TokenIdentityText()]))])
  }

  lemma CreationPaths()
    ensures SourceText(Creation()) == "object.status.connectTokenCreation"
    ensures SourceText(Identity()) == "object.status.connectTokenCreation.identity"
  {
    StatusStrings();
    TokenWords();
    hide SourceText, Identifier;
    DotString(Status(Object), "connectTokenCreation", "object.status");
    DotString(Creation(), "identity", "object.status.connectTokenCreation");
  }

  lemma BindingPaths()
    ensures SourceText(Select(Status(Object), "binding")) == "object.status.binding"
    ensures SourceText(BoundToken()) == "object.status.binding.connectToken"
  {
    StatusStrings();
    TokenWords();
    hide SourceText, Identifier;
    DotString(Status(Object), "binding", "object.status");
    DotString(Select(Status(Object), "binding"), "connectToken", "object.status.binding");
  }

  lemma TokenFieldString(f: string)
    requires Identifier(f)
    ensures SourceText(SameTokenField(f)) == TokenFieldText(f)
  {
    hide SourceText, Identifier, Dot, Same;
    CreationPaths();
    BindingPaths();
    DotString(Identity(), f, "object.status.connectTokenCreation.identity");
    DotString(BoundToken(), f, "object.status.binding.connectToken");
    EqString(Select(Identity(), f), Select(BoundToken(), f));
  }

  lemma TokenNamespaceStrings()
    ensures SourceText(Eq(Has(Identity(), "namespace"), Has(BoundToken(), "namespace"))) ==
            Same(Given("object.status.connectTokenCreation.identity", "namespace"),
                 Given("object.status.binding.connectToken", "namespace"))
    ensures SourceText(Or(Not(Has(Identity(), "namespace")), SameTokenField("namespace"))) ==
            Any([Lacks("object.status.connectTokenCreation.identity", "namespace"), TokenFieldText("namespace")])
  {
    ReferenceWords();
    hide SourceText, Identifier, Given, Lacks, Same, Any, TokenFieldText;
    CreationPaths();
    BindingPaths();
    GivenString(Identity(), "namespace", "object.status.connectTokenCreation.identity");
    GivenString(BoundToken(), "namespace", "object.status.binding.connectToken");
    LacksString(Identity(), "namespace", "object.status.connectTokenCreation.identity");
    EqString(Has(Identity(), "namespace"), Has(BoundToken(), "namespace"));
    TokenFieldString("namespace");
    Any2(Not(Has(Identity(), "namespace")), SameTokenField("namespace"));
  }

  lemma TokenIdentityString()
    ensures SourceText(TokenIdentityMatches()) == TokenIdentityText()
  {
    ReferenceWords();
    hide SourceText, Identifier, Given, Lacks, Same, Any, All, InParens, TokenFieldText, Identity, BoundToken;
    TokenFieldString("apiVersion");
    TokenFieldString("kind");
    TokenFieldString("name");
    TokenFieldString("uid");
    TokenNamespaceStrings();
    var a, b := SameTokenField("apiVersion"), SameTokenField("kind");
    var paired := Eq(Has(Identity(), "namespace"), Has(BoundToken(), "namespace"));
    var spaced := Or(Not(Has(Identity(), "namespace")), SameTokenField("namespace"));
    All2(a, b);
    var ps := [AndPiece(a), AndPiece(b)];
    AllPush(And(a, b), ps, SameTokenField("name"));
    var qs := ps + [TokenFieldText("name")];
    AllPush(And(And(a, b), SameTokenField("name")), qs, SameTokenField("uid"));
    var x := And(And(And(a, b), SameTokenField("name")), SameTokenField("uid"));
    var rs := qs + [TokenFieldText("uid")];
    AllPush(x, rs, paired);
    AllPush(And(x, paired), rs + [AndPiece(paired)], spaced);
    assert rs + [AndPiece(paired)] + [AndPiece(spaced)]
        == [TokenFieldText("apiVersion"), TokenFieldText("kind"), TokenFieldText("name"), TokenFieldText("uid"),
            AndPiece(paired), AndPiece(spaced)];
  }

  lemma TokenHeadString()
    ensures SourceText(Has(Status(Object), "binding")) == Given("object.status", "binding")
    ensures SourceText(Eq(Has(Creation(), "identity"), Has(Select(Status(Object), "binding"), "connectToken"))) ==
            Same(Given("object.status.connectTokenCreation", "identity"),
                 Given("object.status.binding", "connectToken"))
    ensures SourceText(Not(Has(Creation(), "identity"))) == Lacks("object.status.connectTokenCreation", "identity")
  {
    hide SourceText, Given, Lacks, Same;
    StatusStrings();
    CreationPaths();
    BindingPaths();
    GivenString(Status(Object), "binding", "object.status");
    GivenString(Creation(), "identity", "object.status.connectTokenCreation");
    GivenString(Select(Status(Object), "binding"), "connectToken", "object.status.binding");
    LacksString(Creation(), "identity", "object.status.connectTokenCreation");
    EqString(Has(Creation(), "identity"), Has(Select(Status(Object), "binding"), "connectToken"));
  }

  lemma TokenIdentityUngrouped()
    ensures TokenIdentityMatches().And? && !GroupedInOr(TokenIdentityMatches())
  {
    var ab := And(SameTokenField("apiVersion"), SameTokenField("kind"));
    var abc := And(ab, SameTokenField("name"));
    assert Leftmost(ab) == SameTokenField("apiVersion");
    assert Leftmost(abc) == Leftmost(ab);
    assert Leftmost(And(abc, SameTokenField("uid"))) == Leftmost(abc);
  }

  lemma TokenPairedString()
    ensures SourceText(TokenPaired()) == TokenPairedText() && GroupedInOr(TokenPaired())
  {
    TokenIdentityUngrouped();
    hide SourceText, Given, Lacks, Same, Any, All, InParens, TokenIdentityText, TokenIdentityMatches;
    TokenHeadString();
    TokenIdentityString();
    var a := Has(Status(Object), "binding");
    var b := Eq(Has(Creation(), "identity"), Has(Select(Status(Object), "binding"), "connectToken"));
    var c := Or(Not(Has(Creation(), "identity")), TokenIdentityMatches());
    Any2(Not(Has(Creation(), "identity")), TokenIdentityMatches());
    All2(a, b);
    AllPush(And(a, b), [AndPiece(a), AndPiece(b)], c);
    assert [AndPiece(a), AndPiece(b)] + [AndPiece(c)] == [AndPiece(a), AndPiece(b), AndPiece(c)];
    assert Leftmost(And(a, b)) == a;
  }

  lemma PhasePath()
    ensures SourceText(Select(Creation(), "phase")) == "object.status.connectTokenCreation.phase"
  {
    TokenWords();
    hide SourceText, Identifier, Creation;
    CreationPaths();
    DotString(Creation(), "phase", "object.status.connectTokenCreation");
  }

  function ConnectTokenText(): string {
    Any([Differs("request.resource.resource", InQuotes("clusterleases")),
         Same("request.operation", InQuotes("DELETE")),
         Lacks("object", "status"), Lacks("object.status", "connectTokenCreation"),
         Same("object.status.connectTokenCreation.phase", InQuotes("closed")),
         InParens(TokenPairedText())])
  }

  lemma ConnectTokenString()
    ensures SourceText(ConnectTokenReciprocal()) == ConnectTokenText()
  {
    Paths();
    hide Path, SourceText, Lacks, Same, Differs, InQuotes, Any, InParens, TokenPairedText, TokenPaired, Identifier;
    StatusStrings();
    IsString(Resource, LEASES);
    IsString(Operation, DELETE);
    LacksString(Object, "status", "object");
    LacksString(Status(Object), "connectTokenCreation", "object.status");
    PhasePath();
    LiteralString("closed");
    EqString(Select(Creation(), "phase"), Lit(Str("closed")));
    TokenPairedString();
    Any6(IsNot(Resource, LEASES), Is(Operation, DELETE), Not(Has(Object, "status")),
         Not(Has(Status(Object), "connectTokenCreation")),
         Eq(Select(Creation(), "phase"), Lit(Str("closed"))), TokenPaired());
  }

  // ---------------------------------------------------------------- absence of an allocation

  function FilteredText(path: string): string {
    path + (".filter(c, c.type == " + InQuotes("AllocationAbsent") + ")")
  }

  lemma FilteredString(w: Expr, status: string)
    requires SourceText(Status(w)) == status
    ensures SourceText(AbsenceConditions(w)) == FilteredText(Dot(status, "conditions"))
  {
    StatusWords();
    hide SourceText, Identifier;
    DotString(Status(w), "conditions", status);
    FilterText(Select(Status(w), "conditions"), "type", "AllocationAbsent");
    FilterTail(StringText("AllocationAbsent", false));
  }

  lemma FilterTail(key: string)
    ensures ".filter(c," + (" " + ("c." + "type" + (" " + ("==" + (" " + (key + ")"))))))
         == ".filter(c, c.type == " + key + ")"
  {
    var head := ".filter(c," + " " + ("c." + "type") + " " + "==" + " ";
    assert head == ".filter(c, c.type == ";
    assert ".filter(c," + (" " + ("c." + "type" + (" " + ("==" + (" " + (key + ")")))))) == head + key + ")";
  }

  lemma EmptyListString()
    ensures SourceText(Lit(List([]))) == "[]"
  {
    ListText([], false);
    assert Tokens(Lit(List([]))) == Literally(List([]), false);
  }

  lemma ConditionPaths()
    ensures Dot("oldObject.status", "conditions") == "oldObject.status.conditions"
    ensures Dot("object.status", "conditions") == "object.status.conditions"
  {}

  lemma OldMissingString()
    ensures SourceText(OldAbsenceMissing()) ==
            Any([Same("oldObject", "null"), Lacks("oldObject", "status"), Lacks("oldObject.status", "conditions")])
  {
    hide SourceText, Same, Lacks, Any;
    StatusStrings();
    SidesText();
    EqString(OldObject, Lit(Null));
    LacksString(OldObject, "status", "oldObject");
    LacksString(Status(OldObject), "conditions", "oldObject.status");
    Any3(Eq(OldObject, Lit(Null)), Not(Has(OldObject, "status")), Not(Has(Status(OldObject), "conditions")));
  }

  lemma OldAbsenceString()
    ensures SourceText(Cond(OldAbsenceMissing(), Lit(List([])), AbsenceConditions(OldObject))) ==
            Ternary(Any([Same("oldObject", "null"), Lacks("oldObject", "status"),
                         Lacks("oldObject.status", "conditions")]),
                    "[]", FilteredText("oldObject.status.conditions"))
  {
    hide SourceText, Same, Lacks, Any, Ternary, FilteredText, OldAbsenceMissing, Dot;
    StatusStrings();
    EmptyListString();
    ConditionPaths();
    FilteredString(OldObject, "oldObject.status");
    OldMissingString();
    CondString(OldAbsenceMissing(), Lit(List([])), AbsenceConditions(OldObject));
  }

  lemma NewAbsenceString()
    ensures SourceText(Cond(Missing(Object, "conditions"), Lit(List([])), AbsenceConditions(Object))) ==
            Ternary(Any([Lacks("object", "status"), Lacks("object.status", "conditions")]),
                    "[]", FilteredText("object.status.conditions"))
  {
    hide SourceText, Lacks, Any, Ternary, FilteredText, Missing, Dot;
    StatusStrings();
    EmptyListString();
    ConditionPaths();
    FilteredString(Object, "object.status");
    MissingString(Object, "object", "object.status", "conditions");
    CondString(Missing(Object, "conditions"), Lit(List([])), AbsenceConditions(Object));
  }

  function AbsenceText(): string {
    Same(InParens(Ternary(Any([Same("oldObject", "null"), Lacks("oldObject", "status"),
                               Lacks("oldObject.status", "conditions")]),
                          "[]", FilteredText("oldObject.status.conditions"))),
         InParens(Ternary(Any([Lacks("object", "status"), Lacks("object.status", "conditions")]),
                          "[]", FilteredText("object.status.conditions"))))
  }

  function AbsenceRuleText(user: string): string {
    Any([Differs("request.resource.resource", InQuotes("clusterleases")),
         Same("request.userInfo.username", Quoted(user)),
         Same("request.operation", InQuotes("DELETE")), InParens(AbsenceText())])
  }

  lemma AbsenceString(user: string)
    ensures SourceText(AbsenceUnchanged(user)) == AbsenceRuleText(user)
  {
    Paths();
    hide Path, SourceText, Same, Differs, Lacks, InQuotes, Quoted, Any, InParens, Ternary, FilteredText;
    hide OldAbsenceMissing, AbsenceConditions, Missing;
    IsString(Resource, LEASES);
    IsString(Username, user);
    IsString(Operation, DELETE);
    OldAbsenceString();
    NewAbsenceString();
    var before := Cond(OldAbsenceMissing(), Lit(List([])), AbsenceConditions(OldObject));
    var after := Cond(Missing(Object, "conditions"), Lit(List([])), AbsenceConditions(Object));
    EqString(before, after);
    Any4(IsNot(Resource, LEASES), Is(Username, user), Is(Operation, DELETE), Eq(before, after));
  }

  // ---------------------------------------------------------------- retention

  function RetainedText(path: string): string {
    path + (".exists(f, f == " + InQuotes("kobe.kunobi.ninja/teardown-receipt-retention") + ")")
  }

  lemma ExistsTail(key: string)
    ensures ".exists(f," + (" " + ("f" + (" " + ("==" + (" " + (key + ")"))))))
         == ".exists(f, f == " + key + ")"
  {
    var head := ".exists(f," + " " + "f" + " " + "==" + " ";
    assert head == ".exists(f, f == ";
    assert ".exists(f," + (" " + ("f" + (" " + ("==" + (" " + (key + ")")))))) == head + key + ")";
  }

  lemma RetentionName()
    ensures RETENTION == "kobe.kunobi.ninja/teardown-receipt-retention"
  {}

  lemma MetadataPaths()
    ensures SourceText(Metadata(Object)) == "object.metadata"
    ensures SourceText(Metadata(OldObject)) == "oldObject.metadata"
  {
    StatusWords();
    SidesText();
    hide SourceText, Identifier;
    DotString(Object, "metadata", "object");
    DotString(OldObject, "metadata", "oldObject");
  }

  lemma RetainedString(w: Expr, metadata: string)
    requires SourceText(Metadata(w)) == metadata
    ensures SourceText(HasFinalizers(w)) == Given(metadata, "finalizers")
    ensures SourceText(Not(HasFinalizers(w))) == Lacks(metadata, "finalizers")
    ensures SourceText(RetainedExpr(w)) == RetainedText(Dot(metadata, "finalizers"))
    ensures SourceText(Not(RetainedExpr(w))) == "!" + RetainedText(Dot(metadata, "finalizers"))
  {
    MetadataWords();
    hide SourceText, Identifier, Given, Lacks, Dot;
    GivenString(Metadata(w), "finalizers", metadata);
    LacksString(Metadata(w), "finalizers", metadata);
    DotString(Metadata(w), "finalizers", metadata);
    ExistsText(Select(Metadata(w), "finalizers"), RETENTION);
    ExistsTail(StringText(RETENTION, false));
    RetentionName();
    NotString(RetainedExpr(w));
  }

  lemma FinalizerPaths()
    ensures Dot("oldObject.metadata", "finalizers") == "oldObject.metadata.finalizers"
    ensures Dot("object.metadata", "finalizers") == "object.metadata.finalizers"
  {}

  lemma StillRetainedString()
    ensures var e := And(HasFinalizers(Object), RetainedExpr(Object));
            GroupedInOr(e) && SourceText(e) ==
            All([Given("object.metadata", "finalizers"), RetainedText("object.metadata.finalizers")])
  {
    hide SourceText, Given, Lacks, Dot, RetainedText, All;
    MetadataPaths();
    FinalizerPaths();
    RetainedString(Object, "object.metadata");
    All2(HasFinalizers(Object), RetainedExpr(Object));
    assert Leftmost(HasFinalizers(Object)) == HasFinalizers(Object);
  }

  function RetentionPieces(): seq<string> {
    [Differs("request.resource.resource", InQuotes("clusterleases")),
     Differs("request.operation", InQuotes("UPDATE")),
     Lacks("oldObject.metadata", "finalizers"), "!" + RetainedText("oldObject.metadata.finalizers"),
     InParens(All([Given("object.metadata", "finalizers"), RetainedText("object.metadata.finalizers")])),
     InParens(SameValueText("teardownAcknowledgement"))]
  }

  function RetentionText(): string { Any(RetentionPieces()) }

  lemma RetentionString()
    ensures SourceText(RetentionKept()) == RetentionText()
  {
    Paths();
    hide Path, SourceText, Differs, InQuotes, Lacks, Given, Dot, RetainedText, Any, All, InParens, SameValueText;
    hide Identifier, SameValue, HasFinalizers, RetainedExpr;
    IsString(Resource, LEASES);
    IsString(Operation, UPDATE);
    MetadataPaths();
    FinalizerPaths();
    RetainedString(OldObject, "oldObject.metadata");
    StillRetainedString();
    ReleaseWords();
    SameValueString(ACK);
    SameValueGrouped(ACK);
    Any6(IsNot(Resource, LEASES), IsNot(Operation, UPDATE), Not(HasFinalizers(OldObject)),
         Not(RetainedExpr(OldObject)), And(HasFinalizers(Object), RetainedExpr(Object)), SameValue(ACK));
  }

  // ---------------------------------------------------------------- the chart's release override

  const RELEASE_TEXT := "'kobe.kunobi.ninja/release-quarantine'"

  function IndexText(path: string): string { path + "[" + RELEASE_TEXT + "]" }

  lemma ReleaseName()
    ensures StringText(RELEASE, false) == RELEASE_TEXT == InQuotes(RELEASE)
  {
    assert RELEASE == "kobe.kunobi.ninja/release-quarantine";
  }

  lemma ReleaseIndexed()
    ensures !Identifier(RELEASE)
  {
    assert RELEASE[4] == '.';
  }

  lemma AnnotationsPath(w: Expr, metadata: string)
    requires SourceText(Metadata(w)) == metadata
    ensures SourceText(Has(Metadata(w), "annotations")) == Given(metadata, "annotations")
    ensures SourceText(Select(Metadata(w), "annotations")) == Dot(metadata, "annotations")
  {
    MetadataWords();
    hide SourceText, Identifier, Given, Dot;
    GivenString(Metadata(w), "annotations", metadata);
    DotString(Metadata(w), "annotations", metadata);
  }

  lemma AnnotationStrings(w: Expr, metadata: string)
    requires SourceText(Metadata(w)) == metadata
    ensures SourceText(In(Lit(Str(RELEASE)), Select(Metadata(w), "annotations"))) ==
            Within(RELEASE_TEXT, Dot(metadata, "annotations"))
    ensures SourceText(Annotation(w)) == IndexText(Dot(metadata, "annotations"))
  {
    ReleaseIndexed();
    hide SourceText, Identifier, Dot;
    AnnotationsPath(w, metadata);
    ReleaseName();
    var path, notes := Dot(metadata, "annotations"), Select(Metadata(w), "annotations");
    InText(Lit(Str(RELEASE)), notes);
    LiteralString(RELEASE);
    Operators();
    BetweenIs(RELEASE_TEXT, "in", path);
    SelectText(notes, RELEASE);
    hide StringText;
    assert path + ("[" + (RELEASE_TEXT + "]")) == path + "[" + RELEASE_TEXT + "]";
  }

  lemma AnnotatedString(w: Expr, metadata: string)
    requires SourceText(Metadata(w)) == metadata
    ensures SourceText(Annotated(w)) ==
            All([Given(metadata, "annotations"), Within(RELEASE_TEXT, Dot(metadata, "annotations"))])
  {
    hide SourceText, Given, Within, Dot, All;
    AnnotationsPath(w, metadata);
    AnnotationStrings(w, metadata);
    All2(Has(Metadata(w), "annotations"), In(Lit(Str(RELEASE)), Select(Metadata(w), "annotations")));
  }

  lemma UidPath()
    ensures SourceText(Select(Metadata(OldObject), "uid")) == Dot("oldObject.metadata", "uid")
  {
    ReferenceWords();
    hide SourceText, Identifier, Dot;
    MetadataPaths();
    DotString(Metadata(OldObject), "uid", "oldObject.metadata");
  }

  function GrantedPieces(): seq<string> {
    [Given("oldObject.metadata", "annotations"), Within(RELEASE_TEXT, Dot("oldObject.metadata", "annotations")),
     Same(IndexText(Dot("oldObject.metadata", "annotations")), Dot("oldObject.metadata", "uid"))]
  }

  lemma GrantedString()
    ensures SourceText(ReleaseGranted()) == All(GrantedPieces())
  {
    hide SourceText, Given, Within, Same, Dot, All, IndexText, Annotated;
    MetadataPaths();
    UidPath();
    AnnotationStrings(OldObject, "oldObject.metadata");
    AnnotatedString(OldObject, "oldObject.metadata");
    var uid := Eq(Annotation(OldObject), Select(Metadata(OldObject), "uid"));
    EqString(Annotation(OldObject), Select(Metadata(OldObject), "uid"));
    var ps := [Given("oldObject.metadata", "annotations"),
               Within(RELEASE_TEXT, Dot("oldObject.metadata", "annotations"))];
    assert Annotated(OldObject).And? by { AnnotatedIsAnd(OldObject); }
    AllPush(Annotated(OldObject), ps, uid);
    assert ps + [AndPiece(uid)] == GrantedPieces();
  }

  lemma AnnotatedIsAnd(w: Expr)
    ensures Annotated(w).And?
  {}

  function OverrideText(controlPlane: string): string {
    All([Same("request.userInfo.username", Quoted(controlPlane))] + GrantedPieces()
        + [Given("oldObject", "status"), Given("oldObject.status", "phase"),
           Same(Dot("oldObject.status", "phase"), InQuotes("Quarantined"))])
  }

  lemma QuarantinedStrings()
    ensures SourceText(Has(OldObject, "status")) == Given("oldObject", "status")
    ensures SourceText(Has(Status(OldObject), "phase")) == Given("oldObject.status", "phase")
    ensures SourceText(Eq(Select(Status(OldObject), "phase"), Lit(Str("Quarantined")))) ==
            Same(Dot("oldObject.status", "phase"), InQuotes("Quarantined"))
  {
    TokenWords();
    hide SourceText, Identifier, Given, Same, Dot, InQuotes;
    StatusStrings();
    GivenString(OldObject, "status", "oldObject");
    GivenString(Status(OldObject), "phase", "oldObject.status");
    DotString(Status(OldObject), "phase", "oldObject.status");
    LiteralString("Quarantined");
    EqString(Select(Status(OldObject), "phase"), Lit(Str("Quarantined")));
  }

  lemma UserGrantedString(controlPlane: string)
    ensures SourceText(And(Is(Username, controlPlane), ReleaseGranted())) ==
            All([Same("request.userInfo.username", Quoted(controlPlane))] + GrantedPieces())
  {
    Paths();
    hide Path;
    IsString(Username, controlPlane);
    hide SourceText, Same, Quoted;
    GrantedString();
    assert GrantedPieces() != [];
    hide GrantedPieces;
    var who := Same("request.userInfo.username", Quoted(controlPlane));
    assert All([who]) == who;
    AllJoin(Is(Username, controlPlane), [who], ReleaseGranted(), GrantedPieces());
  }

  lemma OverrideString(controlPlane: string)
    ensures SourceText(QuarantineOverride(controlPlane)) == OverrideText(controlPlane)
  {
    hide SourceText, Given, Same, Dot, InQuotes, Quoted, All, GrantedPieces, ReleaseGranted;
    UserGrantedString(controlPlane);
    QuarantinedStrings();
    var x := And(Is(Username, controlPlane), ReleaseGranted());
    var ps := [Same("request.userInfo.username", Quoted(controlPlane))] + GrantedPieces();
    var a, b := Has(OldObject, "status"), Has(Status(OldObject), "phase");
    var c := Eq(Select(Status(OldObject), "phase"), Lit(Str("Quarantined")));
    AllPush(x, ps, a);
    AllPush(And(x, a), ps + [AndPiece(a)], b);
    AllPush(And(And(x, a), b), ps + [AndPiece(a)] + [AndPiece(b)], c);
    assert ps + [AndPiece(a)] + [AndPiece(b)] + [AndPiece(c)] == ps + [AndPiece(a), AndPiece(b), AndPiece(c)];
  }

  lemma OverrideGrouped(controlPlane: string)
    ensures GroupedInOr(QuarantineOverride(controlPlane))
  {
    var x := And(Is(Username, controlPlane), ReleaseGranted());
    assert Leftmost(x) == Is(Username, controlPlane);
    assert Leftmost(And(x, Has(OldObject, "status"))) == Leftmost(x);
  }

  function ChartRetentionText(controlPlane: string): string {
    Any(RetentionPieces() + [InParens(OverrideText(controlPlane))])
  }

  lemma ChartRetentionString(controlPlane: string)
    ensures SourceText(RetentionKeptOrReleased(controlPlane)) == ChartRetentionText(controlPlane)
  {
    assert RetentionKept().Or?;
    hide SourceText, Any, RetentionPieces, InParens, OverrideText, RetentionKept, QuarantineOverride;
    RetentionString();
    OverrideString(controlPlane);
    OverrideGrouped(controlPlane);
    AnyPush(RetentionKept(), RetentionPieces(), QuarantineOverride(controlPlane));
  }

  function AlreadyGrantedText(): string {
    All([Differs("oldObject", "null"), Given("oldObject.metadata", "annotations"),
         Within(RELEASE_TEXT, Dot("oldObject.metadata", "annotations")),
         Same(IndexText(Dot("oldObject.metadata", "annotations")), IndexText(Dot("object.metadata", "annotations")))])
  }

  function AlreadyGranted(): Expr {
    And(And(Ne(OldObject, Lit(Null)), Annotated(OldObject)), Eq(Annotation(OldObject), Annotation(Object)))
  }

  lemma StoredAnnotatedString()
    ensures SourceText(And(Ne(OldObject, Lit(Null)), Annotated(OldObject))) ==
            All([Differs("oldObject", "null"), Given("oldObject.metadata", "annotations"),
                 Within(RELEASE_TEXT, Dot("oldObject.metadata", "annotations"))])
  {
    SidesText();
    AnnotatedIsAnd(OldObject);
    hide SourceText, Differs, Given, Within, Dot, Annotated;
    EqString(OldObject, Lit(Null));
    MetadataPaths();
    AnnotatedString(OldObject, "oldObject.metadata");
    var stored := Differs("oldObject", "null");
    var qs := [Given("oldObject.metadata", "annotations"),
               Within(RELEASE_TEXT, Dot("oldObject.metadata", "annotations"))];
    assert All([stored]) == stored;
    AllJoin(Ne(OldObject, Lit(Null)), [stored], Annotated(OldObject), qs);
    assert [stored] + qs == [stored, qs[0], qs[1]];
  }

  lemma SameAnnotationString()
    ensures SourceText(Eq(Annotation(OldObject), Annotation(Object))) ==
            Same(IndexText(Dot("oldObject.metadata", "annotations")), IndexText(Dot("object.metadata", "annotations")))
  {
    hide SourceText, Dot, Annotation, Same, IndexText;
    MetadataPaths();
    AnnotationStrings(OldObject, "oldObject.metadata");
    AnnotationStrings(Object, "object.metadata");
    AnnotationPlain(OldObject);
    AnnotationPlain(Object);
    EqString(Annotation(OldObject), Annotation(Object));
  }

  lemma AlreadyGrantedString()
    ensures SourceText(AlreadyGranted()) == AlreadyGrantedText() && GroupedInOr(AlreadyGranted())
  {
    var stored := And(Ne(OldObject, Lit(Null)), Annotated(OldObject));
    assert Leftmost(stored) == Ne(OldObject, Lit(Null));
    hide SourceText, Differs, Given, Within, Dot, Annotated, Annotation, Same, IndexText, All;
    StoredAnnotatedString();
    SameAnnotationString();
    var kept := Eq(Annotation(OldObject), Annotation(Object));
    AnnotationPlain(OldObject);
    var ps := [Differs("oldObject", "null"), Given("oldObject.metadata", "annotations"),
               Within(RELEASE_TEXT, Dot("oldObject.metadata", "annotations"))];
    AllPush(stored, ps, kept);
    assert ps + [AndPiece(kept)] == [ps[0], ps[1], ps[2], AndPiece(kept)];
  }

  lemma AnnotationPlain(w: Expr)
    ensures Annotation(w).Select?
  {}

  function GrantRuleText(resource: string, controlPlane: string, user: string): string {
    Any([Differs("request.resource.resource", InQuotes(resource)),
         NotWithin("request.userInfo.username", InBrackets(Comma(Quoted(controlPlane), Quoted(user)))),
         Same("request.operation", InQuotes("DELETE")), Lacks("object.metadata", "annotations"),
         "!" + InParens(Within(RELEASE_TEXT, Dot("object.metadata", "annotations"))),
         InParens(AlreadyGrantedText())])
  }

  lemma UnannotatedStrings()
    ensures SourceText(Not(Has(Metadata(Object), "annotations"))) == Lacks("object.metadata", "annotations")
    ensures SourceText(Not(In(Lit(Str(RELEASE)), Select(Metadata(Object), "annotations")))) ==
            "!" + InParens(Within(RELEASE_TEXT, Dot("object.metadata", "annotations")))
  {
    hide SourceText, Lacks, Within, Dot, InParens;
    MetadataPaths();
    LacksString(Metadata(Object), "annotations", "object.metadata");
    AnnotationStrings(Object, "object.metadata");
    NotString(In(Lit(Str(RELEASE)), Select(Metadata(Object), "annotations")));
  }

  lemma AccountsString(controlPlane: string, user: string)
    ensures SourceText(Not(In(Attr(Username), Lit(List([Str(controlPlane), Str(user)]))))) ==
            NotWithin("request.userInfo.username", InBrackets(Comma(Quoted(controlPlane), Quoted(user))))
  {
    Paths();
    hide Path, SourceText, Quoted, NotWithin, InBrackets, Comma, Render, Literally;
    PairString(controlPlane, user, true);
    NotAmongString(Username, [Str(controlPlane), Str(user)]);
  }

  lemma GrantRuleString(resource: string, controlPlane: string, user: string)
    ensures SourceText(ReleaseGrantedByOperator(resource, controlPlane, user)) ==
            GrantRuleText(resource, controlPlane, user)
  {
    Paths();
    hide Path, SourceText, Same, Differs, Lacks, Within, NotWithin, Dot, InQuotes, Quoted, InParens, InBrackets, Comma;
    hide Any, AlreadyGrantedText;
    IsString(Resource, resource);
    IsString(Operation, DELETE);
    AccountsString(controlPlane, user);
    UnannotatedStrings();
    AlreadyGrantedString();
    Any6(IsNot(Resource, resource), Not(In(Attr(Username), Lit(List([Str(controlPlane), Str(user)])))),
         Is(Operation, DELETE), Not(Has(Metadata(Object), "annotations")),
         Not(In(Lit(Str(RELEASE)), Select(Metadata(Object), "annotations"))), AlreadyGranted());
  }

  // ---------------------------------------------------------------- the whole sets

  function ProofRuleText(resource: string, user: string, f: string): string {
    FieldRuleText(resource, Same("request.userInfo.username", Quoted(user)), f)
  }

  function LifecycleRuleText(resource: string, user: string, f: string): string {
    FieldRuleText(resource, Differs("request.userInfo.username", Quoted(user)), f)
  }

  function LeaseProofTexts(user: string): seq<string> {
    [ProofRuleText("clusterleases", user, "teardownReceipt"),
     ProofRuleText("clusterleases", user, "teardownEvidence"),
     ProofRuleText("clusterleases", user, "teardownAttemptId"),
     ProofRuleText("clusterleases", user, "unboundReleaseVerifiedAt"),
     ProofRuleText("clusterleases", user, "teardownAcknowledgement")]
  }

  function InstanceProofTexts(user: string): seq<string> {
    [ProofRuleText("clusterinstances", user, "creationManifest"),
     ProofRuleText("clusterinstances", user, "teardownIdentities")]
  }

  function LeaseLifecycleTexts(user: string): seq<string> {
    [LifecycleRuleText("clusterleases", user, "binding"), LifecycleRuleText("clusterleases", user, "clusterName"),
     LifecycleRuleText("clusterleases", user, "phase"),
     LifecycleRuleText("clusterleases", user, "connectTokenCreation")]
  }

  function InstanceLifecycleTexts(user: string): seq<string> {
    [LifecycleRuleText("clusterinstances", user, "binding"), LifecycleRuleText("clusterinstances", user, "leaseRef"),
     LifecycleRuleText("clusterinstances", user, "phase")]
  }

  lemma ProofFieldStrings(user: string)
    ensures Texts(UnchangedFields(LEASES, LEASE_PROOF_FIELDS, user)) == LeaseProofTexts(user)
    ensures Texts(UnchangedFields(INSTANCES, INSTANCE_PROOF_FIELDS, user)) == InstanceProofTexts(user)
  {
    hide SourceText, Identifier, FieldRuleText, Same, Differs, Quoted, UnchangedStatusField;
    ProofFieldsWrite();
    forall i | 0 <= i < 5
      ensures SourceText(UnchangedStatusField(LEASES, LEASE_PROOF_FIELDS[i], user)) ==
              ProofRuleText(LEASES, user, LEASE_PROOF_FIELDS[i])
    {
      FieldRuleStrings(LEASES, LEASE_PROOF_FIELDS[i], user);
    }
    forall i | 0 <= i < 2
      ensures SourceText(UnchangedStatusField(INSTANCES, INSTANCE_PROOF_FIELDS[i], user)) ==
              ProofRuleText(INSTANCES, user, INSTANCE_PROOF_FIELDS[i])
    {
      FieldRuleStrings(INSTANCES, INSTANCE_PROOF_FIELDS[i], user);
    }
  }

  lemma LifecycleFieldStrings(user: string)
    ensures Texts(LifecycleFields(LEASES, LEASE_LIFECYCLE_FIELDS, user)) == LeaseLifecycleTexts(user)
    ensures Texts(LifecycleFields(INSTANCES, INSTANCE_LIFECYCLE_FIELDS, user)) == InstanceLifecycleTexts(user)
  {
    hide SourceText, Identifier, FieldRuleText, Same, Differs, Quoted, AuthorityCannotChangeStatusField;
    LifecycleFieldsWrite();
    forall i | 0 <= i < 4
      ensures SourceText(AuthorityCannotChangeStatusField(LEASES, LEASE_LIFECYCLE_FIELDS[i], user)) ==
              LifecycleRuleText(LEASES, user, LEASE_LIFECYCLE_FIELDS[i])
    {
      FieldRuleStrings(LEASES, LEASE_LIFECYCLE_FIELDS[i], user);
    }
    forall i | 0 <= i < 3
      ensures SourceText(AuthorityCannotChangeStatusField(INSTANCES, INSTANCE_LIFECYCLE_FIELDS[i], user)) ==
              LifecycleRuleText(INSTANCES, user, INSTANCE_LIFECYCLE_FIELDS[i])
    {
      FieldRuleStrings(INSTANCES, INSTANCE_LIFECYCLE_FIELDS[i], user);
    }
  }

  lemma TextsAppend(a: seq<Expr>, b: seq<Expr>)
    ensures Texts(a + b) == Texts(a) + Texts(b)
  {
    hide SourceText;
  }

  function CommonTexts(user: string): seq<string> {
    [EvidenceText(user), StatusOnlyText(user)]
    + (LeaseProofTexts(user) + InstanceProofTexts(user) + LeaseLifecycleTexts(user) + InstanceLifecycleTexts(user))
    + [ConnectTokenText(), AbsenceRuleText(user)]
  }

  lemma FieldExpressionStrings(user: string)
    ensures Texts(FieldExpressions(user)) ==
            LeaseProofTexts(user) + InstanceProofTexts(user) + LeaseLifecycleTexts(user) + InstanceLifecycleTexts(user)
  {
    hide Texts, UnchangedFields, LifecycleFields, LeaseProofTexts, InstanceProofTexts, LeaseLifecycleTexts,
         InstanceLifecycleTexts;
    ProofFieldStrings(user);
    LifecycleFieldStrings(user);
    var a := UnchangedFields(LEASES, LEASE_PROOF_FIELDS, user);
    var b := UnchangedFields(INSTANCES, INSTANCE_PROOF_FIELDS, user);
    var c := LifecycleFields(LEASES, LEASE_LIFECYCLE_FIELDS, user);
    TextsAppend(a, b);
    TextsAppend(a + b, c);
    TextsAppend(a + b + c, LifecycleFields(INSTANCES, INSTANCE_LIFECYCLE_FIELDS, user));
  }

  lemma CommonStrings(user: string)
    ensures Texts(CommonExpressions(user)) == CommonTexts(user)
  {
    hide SourceText, EvidenceText, StatusOnlyText, ConnectTokenText, AbsenceRuleText, FieldExpressions,
         EvidenceOnlyByAuthority, AuthorityWritesStatusOnly, ConnectTokenReciprocal, AbsenceUnchanged,
         LeaseProofTexts, InstanceProofTexts, LeaseLifecycleTexts, InstanceLifecycleTexts;
    var head := [EvidenceOnlyByAuthority(user), AuthorityWritesStatusOnly(user)];
    var tail := [ConnectTokenReciprocal(), AbsenceUnchanged(user)];
    EvidenceString(user);
    StatusOnlyString(user);
    ConnectTokenString();
    AbsenceString(user);
    FieldExpressionStrings(user);
    TextsAppend(head, FieldExpressions(user));
    TextsAppend(head + FieldExpressions(user), tail);
    assert Texts(head) == [EvidenceText(user), StatusOnlyText(user)];
    assert Texts(tail) == [ConnectTokenText(), AbsenceRuleText(user)];
  }

  /** The operator's required texts, in its order. */
  lemma RequiredStrings(user: string)
    ensures Texts(RequiredExpressions(user)) == CommonTexts(user) + [RetentionText()]
  {
    hide SourceText, CommonExpressions, CommonTexts, RetentionKept, RetentionText;
    CommonStrings(user);
    RetentionString();
    TextsAppend(CommonExpressions(user), [RetentionKept()]);
    assert Texts([RetentionKept()]) == [RetentionText()];
  }

  /** The chart's texts, in its order. */
  lemma ChartStrings(user: string, controlPlane: string)
    ensures Texts(ChartExpressions(user, controlPlane)) ==
            CommonTexts(user)
            + [ChartRetentionText(controlPlane),
               GrantRuleText("clusterleases", controlPlane, user),
               GrantRuleText("clusterinstances", controlPlane, user)]
  {
    hide SourceText, CommonExpressions, CommonTexts, ChartRetentionText, GrantRuleText, RetentionKeptOrReleased,
         ReleaseGrantedByOperator;
    CommonStrings(user);
    ChartRetentionString(controlPlane);
    GrantRuleString(LEASES, controlPlane, user);
    GrantRuleString(INSTANCES, controlPlane, user);
    var own := [RetentionKeptOrReleased(controlPlane), ReleaseGrantedByOperator(LEASES, controlPlane, user),
                ReleaseGrantedByOperator(INSTANCES, controlPlane, user)];
    TextsAppend(CommonExpressions(user), own);
    assert Texts(own) == [ChartRetentionText(controlPlane),
                          GrantRuleText("clusterleases", controlPlane, user),
                          GrantRuleText("clusterinstances", controlPlane, user)];
  }

  /** The firewall's texts, in its order. */
  lemma FirewallStrings(user: string, namespace: string)
    ensures Texts(Wall.FirewallExpressions(user, namespace)) ==
            [OutsideNamespaceText(user, namespace), NotTheNamespaceText(user, namespace), NotClusterRbacText(user)]
  {
    hide SourceText, OutsideNamespaceText, NotTheNamespaceText, NotClusterRbacText, Wall.OutsideNamespace,
         Wall.NotTheNamespace, Wall.NotClusterRbac;
    OutsideNamespaceString(user, namespace);
    NotTheNamespaceString(user, namespace);
    NotClusterRbacString(user);
  }
}
