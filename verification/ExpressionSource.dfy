/**
 Policy expressions as texts: how the operator spells each expression, what the API server makes of
 an installed text, and when accepting a text by its normal form fixes its meaning.
 */
module ExpressionSource {
  import opened Common
  import opened Cel
  import opened ExpressionText

  // ---------------------------------------------------------------- tokens

  /** Pieces of text: a blank, bare code, a fixed literal in single quotes, a name quoted as JSON. */
  datatype Token = Gap | Bare(s: string) | Single(s: string) | Json(s: string)

  function SpellToken(t: Token): string {
    match t
    case Gap => " "
    case Bare(s) => s
    case Single(s) => "'" + s + "'"
    case Json(s) => Quoted(s)
  }

  function Render(ts: seq<Token>): string {
    if ts == [] then "" else SpellToken(ts[0]) + Render(ts[1..])
  }

  lemma {:induction false} RenderAppend(a: seq<Token>, b: seq<Token>)
    ensures Render(a + b) == Render(a) + Render(b)
    decreases |a|
  {
    if a == [] {
      assert a + b == b;
    } else {
      assert (a + b)[1..] == a[1..] + b;
      RenderAppend(a[1..], b);
    }
  }

  lemma OneToken(t: Token)
    ensures Render([t]) == SpellToken(t)
  {
    assert SpellToken(t) + "" == SpellToken(t);
  }

  lemma TokenThen(t: Token, ts: seq<Token>)
    ensures Render([t] + ts) == SpellToken(t) + Render(ts)
  {
    assert ([t] + ts)[1..] == ts;
  }

  predicate BareChar(c: char) { Tame(c) && c != '/' }

  predicate BareText(s: string) { forall i :: 0 <= i < |s| ==> BareChar(s[i]) }

  predicate LiteralText(s: string) { forall i :: 0 <= i < |s| ==> Tame(s[i]) }

  predicate Literal(t: Token) { t.Single? || t.Json? }

  predicate Opener(c: char) { c == ' ' || c == '(' || c == '[' }

  /** A literal may follow this token. */
  predicate Opens(t: Token) { t.Gap? || (t.Bare? && t.s != "" && Opener(t.s[|t.s| - 1])) }

  predicate Valid(t: Token, names: set<string>) {
    match t
    case Gap => true
    case Bare(s) => s != "" && BareText(s)
    case Single(s) => LiteralText(s)
    case Json(s) => s in names
  }

  /** Well-formed tokens whose literals all follow an opener; `open` says whether the first may be one. */
  predicate Fit(ts: seq<Token>, open: bool, names: set<string>) {
    ts == [] || (Valid(ts[0], names) && (Literal(ts[0]) ==> open) && Fit(ts[1..], Opens(ts[0]), names))
  }

  predicate OpenAfter(ts: seq<Token>, open: bool) { if ts == [] then open else Opens(ts[|ts| - 1]) }

  lemma {:induction false} FitAppend(a: seq<Token>, b: seq<Token>, open: bool, names: set<string>)
    requires Fit(a, open, names) && Fit(b, OpenAfter(a, open), names)
    ensures Fit(a + b, open, names)
    decreases |a|
  {
    if a == [] {
      assert a + b == b;
    } else {
      assert (a + b)[1..] == a[1..] + b;
      FitAppend(a[1..], b, Opens(a[0]), names);
    }
  }

  // ---------------------------------------------------------------- what the scanner makes of tokens

  lemma {:induction false} BareScans(s: string, last: char)
    requires BareText(s)
    ensures Plain(s, Code, last) && Skippable(s, Code) && Clean(s, Code) && FinalMode(s, Code) == Code
  {
    if s != "" { BareScans(s[1..], Seen(s[0])); }
  }

  lemma SingleScans(s: string, last: char)
    requires LiteralText(s) && Opener(last)
    ensures var t := "'" + s + "'";
            Plain(t, Code, last) && Skippable(t, Code) && Clean(t, Code) && FinalMode(t, Code) == Code
  {
    TameStaysInside(s, '\'', '\'');
    ScanAppend(s, "'", Inside('\''), '\'');
    assert ("'" + s + "'")[1..] == s + "'";
  }

  lemma TokenScans(t: Token, last: char, names: set<string>)
    requires Valid(t, names) && (Literal(t) ==> Opener(last))
    ensures var s := SpellToken(t);
            Plain(s, Code, last) && Skippable(s, Code) && FinalMode(s, Code) == Code
            && (Clean(s, Code) <==> (t.Json? ==> NoRawWhite(t.s)))
    ensures Opens(t) ==> Opener(LastOf(SpellToken(t), last))
  {
    match t
    case Gap =>
    case Bare(s) => BareScans(s, last);
    case Single(s) => SingleScans(s, last);
    case Json(s) => QuotedIsOneLiteral(s, last);
  }

  predicate ClearNames(ts: seq<Token>) { forall i :: 0 <= i < |ts| && ts[i].Json? ==> NoRawWhite(ts[i].s) }

  /** Fit tokens spell a plain, closed text, clean exactly when its names hold no raw white space. */
  lemma {:induction false} FitScans(ts: seq<Token>, open: bool, last: char, names: set<string>)
    requires Fit(ts, open, names) && (open ==> Opener(last))
    ensures Plain(Render(ts), Code, last) && Skippable(Render(ts), Code) && FinalMode(Render(ts), Code) == Code
    ensures Clean(Render(ts), Code) <==> ClearNames(ts)
  {
    if ts != [] {
      var t, rest := ts[0], ts[1..];
      TokenScans(t, last, names);
      FitScans(rest, Opens(t), LastOf(SpellToken(t), last), names);
      ScanAppend(SpellToken(t), Render(rest), Code, last);
      assert ClearNames(ts) <==> (t.Json? ==> NoRawWhite(t.s)) && ClearNames(rest);
    }
  }

  // ---------------------------------------------------------------- how the operator spells expressions

  predicate Letter(c: char) { 'a' <= c <= 'z' || 'A' <= c <= 'Z' || '0' <= c <= '9' }

  predicate Identifier(s: string) { s != "" && forall i :: 0 <= i < |s| ==> Letter(s[i]) }

  /** The part of an attribute's path after `request.`. */
  function Attributed(a: Attribute): string {
    match a
    case Group => "resource.group"
    case Resource => "resource.resource"
    case SubResource => "subResource"
    case Operation => "operation"
    case Namespace => "namespace"
    case Name => "name"
    case Username => "userInfo.username"
  }

  function Path(a: Attribute): string { "request." + Attributed(a) }

  /** Attributes that are compared with configured names. */
  predicate Named(e: Expr) { e == Attr(Username) || e == Attr(Namespace) || e == Attr(Name) }

  function Infix(op: string): seq<Token> { [Gap, Bare(op), Gap] }

  function Parens(ts: seq<Token>): seq<Token> { [Bare("(")] + ts + [Bare(")")] }

  function Items(vs: seq<Value>, named: bool): seq<Token> {
    if vs == [] then []
    else
      var s := if vs[0].Str? then vs[0].s else "";
      [if named then Json(s) else Single(s)]
      + (if |vs| == 1 then [] else [Bare(","), Gap] + Items(vs[1..], named))
  }

  /** A value as literal; the policies write only null, strings and lists of strings. */
  function Literally(v: Value, named: bool): seq<Token> {
    match v
    case Str(s) => [if named then Json(s) else Single(s)]
    case List(vs) => [Bare("[")] + Items(vs, named) + [Bare("]")]
    case _ => [Bare("null")]
  }

  function Leftmost(e: Expr): Expr { if e.And? then Leftmost(e.left) else e }

  /** The source's own choices of parentheses. */
  predicate GroupedInOr(e: Expr) {
    e.Cond? || (e.And? && !(Leftmost(e).Eq? && Leftmost(e).left.Select?)) || (e.Eq? && e.left.Cond?)
  }
  predicate GroupedInAnd(e: Expr) { e.Or? || e.Cond? || (e.Eq? && e.left.Has?) }

  function Tokens(e: Expr): seq<Token>
    decreases e, 1
  {
    match e
    case Lit(v) => Literally(v, false)
    case Attr(a) => [Bare(Path(a))]
    case Object => [Bare("object")]
    case OldObject => [Bare("oldObject")]
    case Select(x, f) =>
      Tokens(x) + if Identifier(f) then [Bare("." + f)] else [Bare("["), Single(f), Bare("]")]
    case Has(x, f) => [Bare("has(")] + Tokens(x) + [Bare("." + f + ")")]
    case Not(x) =>
      if x.Eq? then Compared(x, "!=")
      else if x.Has? || x.ExistsEq? then [Bare("!")] + Tokens(x)
      else [Bare("!")] + Parens(Tokens(x))
    case Or(a, b) => Operand(a, GroupedInOr(a)) + Infix("||") + Operand(b, b.Or? || GroupedInOr(b))
    case And(a, b) => Operand(a, GroupedInAnd(a)) + Infix("&&") + Operand(b, GroupedInAnd(b))
    case Eq(a, b) => Compared(e, "==")
    case In(x, range) =>
      Tokens(x) + Infix("in") + if Named(x) && range.Lit? then Literally(range.v, true) else Tokens(range)
    case Cond(t, a, b) => Tokens(t) + Infix("?") + Operand(a, a.Or?) + Infix(":") + Operand(b, b.Or?)
    case ExistsEq(range, key) =>
      Tokens(range) + [Bare(".exists(f,"), Gap, Bare("f")] + Infix("==") + Literally(key, false) + [Bare(")")]
    case FilterEq(range, f, key) =>
      Tokens(range) + [Bare(".filter(c,"), Gap, Bare("c." + f)] + Infix("==") + Literally(key, false) + [Bare(")")]
  }

  function Operand(e: Expr, grouped: bool): seq<Token>
    decreases e, 2
  {
    if grouped then Parens(Tokens(e)) else Tokens(e)
  }

  function Compared(e: Expr, op: string): seq<Token>
    requires e.Eq?
    decreases e, 0
  {
    Operand(e.left, e.left.Cond?) + Infix(op)
    + if Named(e.left) && e.right.Lit? then Literally(e.right.v, true) else Operand(e.right, e.right.Cond?)
  }

  function SourceText(e: Expr): string { Render(Tokens(e)) }

  // ---------------------------------------------------------------- every expression is spelled fit

  predicate WritesValue(v: Value, named: bool, names: set<string>) {
    match v
    case Str(s) => if named then s in names else LiteralText(s)
    case List(vs) =>
      forall i :: 0 <= i < |vs| ==> vs[i].Str? && if named then vs[i].s in names else LiteralText(vs[i].s)
    case Null => true
    case _ => false
  }

  predicate Rooted(e: Expr) { e.Object? || e.OldObject? || (e.Select? && Rooted(e.e)) }

  /** Expressions that stand on either side of a comparison as they are. */
  predicate Atomic(e: Expr) {
    e.Lit? || e.Attr? || e.Object? || e.OldObject? || e.Select? || e.Has? || e.ExistsEq? || e.FilterEq?
  }

  /** An expression in the fragment the policies are written in, whose configured names are `names`. */
  predicate Writes(e: Expr, names: set<string>) {
    match e
    case Lit(v) => WritesValue(v, false, names)
    case Attr(_) => true
    case Object => true
    case OldObject => true
    case Select(x, f) => Rooted(x) && Writes(x, names) && (Identifier(f) || LiteralText(f))
    case Has(x, f) => Rooted(x) && Writes(x, names) && Identifier(f)
    case Not(x) => Writes(x, names)
    case Or(a, b) => Writes(a, names) && Writes(b, names)
    case And(a, b) => Writes(a, names) && Writes(b, names)
    case Eq(a, b) =>
      && (Atomic(a) || a.Cond?) && (Atomic(b) || b.Cond?)
      && Writes(a, names) && if Named(a) && b.Lit? then WritesValue(b.v, true, names) else Writes(b, names)
    case In(x, range) =>
      && Atomic(x) && Atomic(range)
      && Writes(x, names) && if Named(x) && range.Lit? then WritesValue(range.v, true, names) else Writes(range, names)
    case Cond(t, a, b) =>
      !t.Cond? && !a.Cond? && !b.Cond? && Writes(t, names) && Writes(a, names) && Writes(b, names)
    case ExistsEq(range, key) => Rooted(range) && Writes(range, names) && key.Str? && LiteralText(key.s)
    case FilterEq(range, f, key) =>
      Rooted(range) && Writes(range, names) && Identifier(f) && key.Str? && LiteralText(key.s)
  }

  lemma FitOne(t: Token, open: bool, names: set<string>)
    requires Valid(t, names) && (Literal(t) ==> open)
    ensures Fit([t], open, names)
  {}

  lemma FitFirst(t: Token, ts: seq<Token>, open: bool, names: set<string>)
    requires Valid(t, names) && (Literal(t) ==> open) && Fit(ts, Opens(t), names)
    ensures Fit([t] + ts, open, names)
  {
    assert ([t] + ts)[1..] == ts;
  }

  lemma FitLast(ts: seq<Token>, s: string, open: bool, names: set<string>)
    requires Fit(ts, open, names) && s != "" && BareText(s)
    ensures Fit(ts + [Bare(s)], open, names)
  {
    FitOne(Bare(s), OpenAfter(ts, open), names);
    FitAppend(ts, [Bare(s)], open, names);
  }

  /** Openness only matters to a literal in front. */
  lemma FitAnywhere(ts: seq<Token>, open: bool, names: set<string>)
    requires Fit(ts, true, names) && (ts == [] || !Literal(ts[0]))
    ensures Fit(ts, open, names)
  {}

  lemma FitParens(ts: seq<Token>, open: bool, names: set<string>)
    requires Fit(ts, true, names)
    ensures Fit(Parens(ts), open, names)
  {
    assert BareText("(") && BareText(")");
    FitFirst(Bare("("), ts, open, names);
    FitLast([Bare("(")] + ts, ")", open, names);
  }

  lemma FitInfix(a: seq<Token>, op: string, b: seq<Token>, open: bool, names: set<string>)
    requires Fit(a, open, names) && Fit(b, true, names) && op != "" && BareText(op)
    ensures Fit(a + Infix(op) + b, open, names)
  {
    FitFirst(Gap, b, false, names);
    FitFirst(Bare(op), [Gap] + b, true, names);
    FitFirst(Gap, [Bare(op)] + ([Gap] + b), OpenAfter(a, open), names);
    FitAppend(a, [Gap] + ([Bare(op)] + ([Gap] + b)), open, names);
    assert a + Infix(op) + b == a + ([Gap] + ([Bare(op)] + ([Gap] + b)));
  }

  lemma {:induction false} ItemsFit(vs: seq<Value>, named: bool, names: set<string>)
    requires WritesValue(List(vs), named, names)
    ensures Fit(Items(vs, named), true, names)
  {
    ItemsStep(vs, named);
    if vs != [] {
      var t := if named then Json(vs[0].s) else Single(vs[0].s);
      if |vs| == 1 {
        FitOne(t, true, names);
      } else {
        assert BareText(",");
        ItemsFit(vs[1..], named, names);
        hide Items, Fit, BareText, LiteralText;
        var rest := Items(vs[1..], named);
        FitFirst(Gap, rest, false, names);
        FitFirst(Bare(","), [Gap] + rest, false, names);
        FitFirst(t, [Bare(",")] + ([Gap] + rest), true, names);
      }
    }
  }

  lemma ItemsStep(vs: seq<Value>, named: bool)
    ensures Items(vs, named) ==
            if vs == [] then []
            else
              var s := if vs[0].Str? then vs[0].s else "";
              var t := if named then Json(s) else Single(s);
              if |vs| == 1 then [t] else [t] + ([Bare(",")] + ([Gap] + Items(vs[1..], named)))
  {}

  lemma LiterallyFits(v: Value, named: bool, names: set<string>)
    requires WritesValue(v, named, names)
    ensures Fit(Literally(v, named), true, names) && Literally(v, named) != []
  {
    match v
    case Str(s) => FitOne(if named then Json(s) else Single(s), true, names);
    case List(vs) =>
      assert BareText("[") && BareText("]");
      ItemsFit(vs, named, names);
      FitFirst(Bare("["), Items(vs, named), true, names);
      FitLast([Bare("[")] + Items(vs, named), "]", true, names);
    case Null =>
      assert BareText("null");
      FitOne(Bare("null"), true, names);
  }

  /** The induction's claim: fit tokens, and no literal in front where the text continues a word. */
  predicate Spelled(e: Expr, names: set<string>) {
    && Fit(Tokens(e), true, names) && Tokens(e) != []
    && (Rooted(e) || e.Has? || e.ExistsEq? ==> !Literal(Tokens(e)[0]))
  }

  lemma IdentifierIsBare(pre: string, f: string, post: string)
    requires Identifier(f) && BareText(pre) && BareText(post)
    ensures BareText(pre + f + post) && pre + f + post != ""
  {
    forall i | 0 <= i < |f| ensures BareChar(f[i]) { assert Letter(f[i]); }
  }

  lemma AttributedIsBare(a: Attribute)
    ensures BareText(Attributed(a))
  {}

  lemma BareAppend(a: string, b: string)
    requires BareText(a) && BareText(b)
    ensures BareText(a + b)
  {}

  lemma PathIsBare(a: Attribute)
    ensures BareText(Path(a)) && Path(a) != ""
  {
    assert BareText("request.");
    hide BareText, Attributed;
    AttributedIsBare(a);
    BareAppend("request.", Attributed(a));
  }

  lemma LeafSpelled(e: Expr, names: set<string>)
    requires Writes(e, names) && (e.Lit? || e.Attr? || e.Object? || e.OldObject?)
    ensures Spelled(e, names)
  {
    match e
    case Lit(v) => LiterallyFits(v, false, names);
    case Attr(a) =>
      PathIsBare(a);
      hide Path;
      FitOne(Bare(Path(a)), true, names);
    case Object =>
      assert BareText("object");
      FitOne(Bare("object"), true, names);
    case OldObject =>
      assert BareText("oldObject");
      FitOne(Bare("oldObject"), true, names);
  }

  lemma SelectSpelled(x: Expr, f: string, names: set<string>)
    requires Spelled(x, names) && Rooted(x) && (Identifier(f) || LiteralText(f))
    ensures Spelled(Select(x, f), names)
  {
    var ts := Tokens(x);
    assert Tokens(Select(x, f)) == ts + if Identifier(f) then [Bare("." + f)] else [Bare("["), Single(f), Bare("]")];
    if Identifier(f) {
      assert BareText(".");
      IdentifierIsBare(".", f, "");
      assert "." + f + "" == "." + f;
      hide Tokens, BareText, Fit, Identifier;
      FitLast(ts, "." + f, true, names);
    } else {
      assert BareText("[") && BareText("]");
      hide Tokens, BareText, Identifier, LiteralText;
      FitOne(Bare("]"), false, names);
      FitFirst(Single(f), [Bare("]")], true, names);
      FitFirst(Bare("["), [Single(f)] + [Bare("]")], OpenAfter(ts, true), names);
      hide Fit;
      FitAppend(ts, [Bare("[")] + ([Single(f)] + [Bare("]")]), true, names);
      assert [Bare("[")] + ([Single(f)] + [Bare("]")]) == [Bare("["), Single(f), Bare("]")];
    }
  }

  lemma HasSpelled(x: Expr, f: string, names: set<string>)
    requires Spelled(x, names) && Identifier(f)
    ensures Spelled(Has(x, f), names)
  {
    assert BareText("has(") && BareText(".") && BareText(")");
    IdentifierIsBare(".", f, ")");
    hide BareText, Identifier;
    FitFirst(Bare("has("), Tokens(x), true, names);
    hide Fit;
    FitLast([Bare("has(")] + Tokens(x), "." + f + ")", true, names);
  }

  lemma NegationSpelled(x: Expr, names: set<string>)
    requires Spelled(x, names) && !x.Eq?
    ensures Spelled(Not(x), names)
  {
    assert BareText("!");
    hide BareText;
    var ts := Tokens(x);
    assert Tokens(Not(x)) == [Bare("!")] + if x.Has? || x.ExistsEq? then ts else Parens(ts);
    hide Tokens;
    if x.Has? || x.ExistsEq? {
      FitAnywhere(ts, false, names);
      FitFirst(Bare("!"), ts, true, names);
    } else {
      FitParens(ts, false, names);
      hide Fit;
      FitFirst(Bare("!"), Parens(ts), true, names);
    }
  }

  lemma OperandFits(e: Expr, grouped: bool, names: set<string>)
    requires Spelled(e, names)
    ensures Fit(Operand(e, grouped), true, names) && Operand(e, grouped) != []
  {
    hide Tokens, Fit;
    FitParens(Tokens(e), true, names);
  }

  lemma OrSpelled(a: Expr, b: Expr, names: set<string>)
    requires Spelled(a, names) && Spelled(b, names)
    ensures Spelled(Or(a, b), names)
  {
    var x, y := Operand(a, GroupedInOr(a)), Operand(b, b.Or? || GroupedInOr(b));
    OperandFits(a, GroupedInOr(a), names);
    OperandFits(b, b.Or? || GroupedInOr(b), names);
    assert BareText("||");
    assert Tokens(Or(a, b)) == x + Infix("||") + y;
    hide Fit, Tokens, Operand, BareText, Infix;
    FitInfix(x, "||", y, true, names);
  }

  lemma AndSpelled(a: Expr, b: Expr, names: set<string>)
    requires Spelled(a, names) && Spelled(b, names)
    ensures Spelled(And(a, b), names)
  {
    var x, y := Operand(a, GroupedInAnd(a)), Operand(b, GroupedInAnd(b));
    OperandFits(a, GroupedInAnd(a), names);
    OperandFits(b, GroupedInAnd(b), names);
    assert BareText("&&");
    assert Tokens(And(a, b)) == x + Infix("&&") + y;
    hide Fit, Tokens, Operand, BareText, Infix;
    FitInfix(x, "&&", y, true, names);
  }

  lemma ComparedFits(e: Expr, op: string, names: set<string>)
    requires e.Eq? && Writes(e, names) && (op == "==" || op == "!=") && Spelled(e.left, names)
    requires (Named(e.left) && e.right.Lit?) || Spelled(e.right, names)
    ensures Fit(Compared(e, op), true, names) && Compared(e, op) != []
  {
    var a, b := e.left, e.right;
    var x := Operand(a, a.Cond?);
    OperandFits(a, a.Cond?, names);
    var right := if Named(a) && b.Lit? then Literally(b.v, true) else Operand(b, b.Cond?);
    if Named(a) && b.Lit? { LiterallyFits(b.v, true, names); } else { OperandFits(b, b.Cond?, names); }
    assert BareText("==") && BareText("!=");
    hide Fit, Tokens, Operand, BareText, Literally, Infix;
    FitInfix(x, op, right, true, names);
  }

  function RangeTokens(x: Expr, range: Expr): seq<Token> {
    if Named(x) && range.Lit? then Literally(range.v, true) else Tokens(range)
  }

  lemma MembershipTokens(x: Expr, range: Expr)
    ensures Tokens(In(x, range)) == Tokens(x) + Infix("in") + RangeTokens(x, range)
  {}

  lemma InSpelled(x: Expr, range: Expr, names: set<string>)
    requires Writes(In(x, range), names) && Spelled(x, names)
    requires (Named(x) && range.Lit?) || Spelled(range, names)
    ensures Spelled(In(x, range), names)
  {
    var right := RangeTokens(x, range);
    MembershipTokens(x, range);
    if Named(x) && range.Lit? { LiterallyFits(range.v, true, names); }
    assert BareText("in");
    hide Fit, Tokens, BareText, Literally, Infix;
    FitInfix(Tokens(x), "in", right, true, names);
  }

  lemma CondSpelled(t: Expr, a: Expr, b: Expr, names: set<string>)
    requires Spelled(t, names) && Spelled(a, names) && Spelled(b, names)
    ensures Spelled(Cond(t, a, b), names)
  {
    var x, y := Operand(a, a.Or?), Operand(b, b.Or?);
    var head := Tokens(t) + Infix("?") + x;
    OperandFits(a, a.Or?, names);
    OperandFits(b, b.Or?, names);
    assert BareText("?") && BareText(":");
    assert Tokens(Cond(t, a, b)) == head + Infix(":") + y;
    hide Fit, Tokens, Operand, BareText, Infix;
    FitInfix(Tokens(t), "?", x, true, names);
    FitInfix(head, ":", y, true, names);
  }

  lemma MacroFits(ts: seq<Token>, head: string, item: string, key: Value, names: set<string>)
    requires Fit(ts, true, names) && WritesValue(key, false, names)
    requires head != "" && BareText(head) && item != "" && BareText(item)
    ensures Fit(ts + [Bare(head), Gap, Bare(item)] + Infix("==") + Literally(key, false) + [Bare(")")], true, names)
  {
    LiterallyFits(key, false, names);
    assert BareText("==") && BareText(")");
    hide BareText, Literally;
    FitOne(Bare(item), true, names);
    FitFirst(Gap, [Bare(item)], false, names);
    FitFirst(Bare(head), [Gap] + [Bare(item)], OpenAfter(ts, true), names);
    hide Fit;
    var macro := [Bare(head), Gap, Bare(item)];
    assert [Bare(head)] + ([Gap] + [Bare(item)]) == macro;
    FitAppend(ts, macro, true, names);
    FitInfix(ts + macro, "==", Literally(key, false), true, names);
    FitLast(ts + macro + Infix("==") + Literally(key, false), ")", true, names);
  }

  lemma ExistsSpelled(range: Expr, key: Value, names: set<string>)
    requires Spelled(range, names) && Rooted(range) && key.Str? && LiteralText(key.s)
    ensures Spelled(ExistsEq(range, key), names)
  {
    assert BareText(".exists(f,") && BareText("f");
    var ts := Tokens(range);
    assert Tokens(ExistsEq(range, key)) ==
           ts + [Bare(".exists(f,"), Gap, Bare("f")] + Infix("==") + Literally(key, false) + [Bare(")")];
    hide Fit, BareText, Tokens, Literally;
    MacroFits(ts, ".exists(f,", "f", key, names);
  }

  lemma FilterSpelled(range: Expr, f: string, key: Value, names: set<string>)
    requires Spelled(range, names) && Identifier(f) && key.Str? && LiteralText(key.s)
    ensures Spelled(FilterEq(range, f, key), names)
  {
    assert BareText(".filter(c,") && BareText("c.");
    IdentifierIsBare("c.", f, "");
    assert "c." + f + "" == "c." + f;
    hide Fit, BareText;
    MacroFits(Tokens(range), ".filter(c,", "c." + f, key, names);
  }

  /** Every expression of the fragment is spelled with fit tokens, over its own configured names. */
  lemma {:induction false} WritesSpelled(e: Expr, names: set<string>)
    requires Writes(e, names)
    ensures Spelled(e, names)
  {
    hide Spelled, Rooted, Identifier, LiteralText, WritesValue;
    match e
    case Select(x, f) =>
      WritesSpelled(x, names);
      SelectSpelled(x, f, names);
    case Has(x, f) =>
      WritesSpelled(x, names);
      HasSpelled(x, f, names);
    case Not(x) =>
      if x.Eq? {
        WritesSpelled(x.left, names);
        if !(Named(x.left) && x.right.Lit?) { WritesSpelled(x.right, names); }
        UnequalSpelled(x, names);
      } else {
        WritesSpelled(x, names);
        NegationSpelled(x, names);
      }
    case Or(a, b) =>
      WritesSpelled(a, names);
      WritesSpelled(b, names);
      OrSpelled(a, b, names);
    case And(a, b) =>
      WritesSpelled(a, names);
      WritesSpelled(b, names);
      AndSpelled(a, b, names);
    case Eq(a, b) =>
      WritesSpelled(a, names);
      if !(Named(a) && b.Lit?) { WritesSpelled(b, names); }
      EqualSpelled(e, names);
    case In(x, range) =>
      WritesSpelled(x, names);
      if !(Named(x) && range.Lit?) { WritesSpelled(range, names); }
      InSpelled(x, range, names);
    case Cond(t, a, b) =>
      WritesSpelled(t, names);
      WritesSpelled(a, names);
      WritesSpelled(b, names);
      CondSpelled(t, a, b, names);
    case ExistsEq(range, key) =>
      WritesSpelled(range, names);
      ExistsSpelled(range, key, names);
    case FilterEq(range, f, key) =>
      WritesSpelled(range, names);
      FilterSpelled(range, f, key, names);
    case _ => LeafSpelled(e, names);
  }

  lemma EqualSpelled(e: Expr, names: set<string>)
    requires e.Eq? && Writes(e, names) && Spelled(e.left, names)
    requires (Named(e.left) && e.right.Lit?) || Spelled(e.right, names)
    ensures Spelled(e, names)
  {
    ComparedFits(e, "==", names);
  }

  lemma UnequalSpelled(e: Expr, names: set<string>)
    requires e.Eq? && Writes(e, names) && Spelled(e.left, names)
    requires (Named(e.left) && e.right.Lit?) || Spelled(e.right, names)
    ensures Spelled(Not(e), names)
  {
    InequalityTokens(e);
    hide Tokens, Compared, Fit, Writes, Literally, Operand;
    ComparedFits(e, "!=", names);
  }

  lemma InequalityTokens(e: Expr)
    requires e.Eq?
    ensures Tokens(Not(e)) == Compared(e, "!=")
  {}

  // ---------------------------------------------------------------- what the server makes of a text

  /** The API server's compiler, of which nothing is known: it sees the program of a plain text, refuses
      one with foreign white space between tokens, and reads any other text as it likes. */
  function Compile(parse: string -> Option<Expr>, text: string): Option<Expr> {
    if !PlainText(text) then parse(text)
    else if Skippable(text, Code) then parse(Program(text))
    else None
  }

  /** A text that its normal form determines. */
  predicate Firm(text: string) {
    PlainText(text) && Terminated(text) && Skippable(text, Code) && Clean(text, Code)
  }

  /** What startup accepts in place of a firm text compiles to the same expression, or not at all. */
  lemma AcceptedTextCompilesAlike(parse: string -> Option<Expr>, required: string, actual: string)
    requires Firm(required) && Normalize(actual) == Normalize(required)
    ensures Compile(parse, actual) == None || Compile(parse, actual) == Compile(parse, required)
  {
    NormalizedEqualityIsSound(required, actual);
  }

  predicate AllClear(names: set<string>) { forall n :: n in names ==> NoRawWhite(n) }

  lemma {:induction false} FitNames(ts: seq<Token>, open: bool, names: set<string>)
    requires Fit(ts, open, names)
    ensures forall i :: 0 <= i < |ts| && ts[i].Json? ==> ts[i].s in names
  {
    if ts != [] { FitNames(ts[1..], Opens(ts[0]), names); }
  }

  lemma SourceTextIsFirm(e: Expr, names: set<string>)
    requires Writes(e, names) && AllClear(names)
    ensures Firm(SourceText(e))
  {
    WritesSpelled(e, names);
    FitScans(Tokens(e), true, ' ', names);
    FitNames(Tokens(e), true, names);
  }

  /** The text of every expression of the fragment is plain and closed, and startup's comparison pins
      down its program if and only if none of its configured names holds raw white space. */
  lemma SourceTextSoundIff(e: Expr, names: set<string>)
    requires Writes(e, names)
    ensures PlainText(SourceText(e)) && Terminated(SourceText(e)) && Skippable(SourceText(e), Code)
    ensures ClearNames(Tokens(e)) <==>
            forall actual :: Normalize(actual) == Normalize(SourceText(e)) ==>
              PlainText(actual) && Program(actual) == Program(SourceText(e))
  {
    WritesSpelled(e, names);
    FitScans(Tokens(e), true, ' ', names);
    NormalizedEqualitySoundIffClean(SourceText(e));
  }

  function Texts(es: seq<Expr>): (ts: seq<string>)
    ensures |ts| == |es| && forall i :: 0 <= i < |es| ==> ts[i] == SourceText(es[i])
  {
    seq(|es|, i requires 0 <= i < |es| => SourceText(es[i]))
  }

  /** A compiled expression that evaluates as `e` does, on every request. */
  ghost predicate Means(compiled: Option<Expr>, e: Expr) {
    compiled.Some? && forall r :: Eval(compiled.value, r) == Eval(e, r)
  }

  /** The server's compiler gives the operator's own texts the meaning of their expressions. */
  ghost predicate Reads(parse: string -> Option<Expr>, es: seq<Expr>) {
    forall i :: 0 <= i < |es| ==> Means(Compile(parse, SourceText(es[i])), es[i])
  }
}
