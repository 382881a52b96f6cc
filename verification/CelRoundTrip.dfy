/**
 Round trip: the reader gives every text the operator spells the meaning of the expression it stands for,
 whatever names are spliced in. So what is assumed of the server's compiler can be met.
 */
module CelRoundTrip {
  import opened Common
  import opened Cel
  import opened ExpressionText
  import opened ExpressionSource
  import opened NameVariants
  import opened CelReader
  import opened CelOperands
  import opened SolidTexts

  // ---------------------------------------------------------------- the levels of the grammar

  /** The expression as it is read: conjunctions come out nested to the left. */
  function Read(e: Expr): Expr
    decreases e, 1
  {
    match e
    case Not(x) => Not(Read(x))
    case Or(a, b) => Or(Read(a), Read(b))
    case And(a, b) => Onto(Read(a), b)
    case Eq(a, b) => Eq(Read(a), Read(b))
    case In(x, range) => In(Read(x), Read(range))
    case Cond(t, a, b) => Cond(Read(t), Read(a), Read(b))
    case _ => e
  }

  /** A conjunction with the conjuncts of `e` added one by one. */
  function Onto(left: Expr, e: Expr): Expr
    decreases e, 2
  {
    if e.And? then Onto(Onto(left, e.left), e.right) else And(left, Read(e))
  }

  lemma {:induction false} ReadKeepsMeaning(e: Expr, r: Request)
    ensures Eval(Read(e), r) == Eval(e, r)
    decreases e, 0
  {
    match e
    case Not(x) => ReadKeepsMeaning(x, r);
    case Or(a, b) => ReadKeepsMeaning(a, r); ReadKeepsMeaning(b, r);
    case And(a, b) => ReadKeepsMeaning(a, r); OntoKeepsMeaning(Read(a), b, r);
    case Eq(a, b) => ReadKeepsMeaning(a, r); ReadKeepsMeaning(b, r);
    case In(x, range) => ReadKeepsMeaning(x, r); ReadKeepsMeaning(range, r);
    case Cond(t, a, b) => ReadKeepsMeaning(t, r); ReadKeepsMeaning(a, r); ReadKeepsMeaning(b, r);
    case _ =>
  }

  lemma {:induction false} OntoKeepsMeaning(left: Expr, e: Expr, r: Request)
    ensures Eval(Onto(left, e), r) == AndAlso(Eval(left, r), Eval(e, r))
    decreases e, 1
  {
    if e.And? {
      OntoKeepsMeaning(left, e.left, r);
      OntoKeepsMeaning(Onto(left, e.left), e.right, r);
    } else {
      ReadKeepsMeaning(e, r);
    }
  }

  function OperandText(e: Expr, grouped: bool): string {
    if grouped then "(" + (SourceText(e) + ")") else SourceText(e)
  }

  lemma OperandRendered(e: Expr, grouped: bool)
    ensures Render(Operand(e, grouped)) == OperandText(e, grouped)
  {
    var ts := Tokens(e);
    hide Tokens, Render;
    if grouped {
      assert Parens(ts) == [Bare("(")] + (ts + [Bare(")")]);
      TokenThen(Bare("("), ts + [Bare(")")]);
      RenderAppend(ts, [Bare(")")]);
      OneToken(Bare(")"));
    }
  }

  lemma AtomicReads(e: Expr, names: set<string>, rest: string)
    requires Atomic(e) && Writes(e, names) && Stop(rest)
    ensures ReadUnary(SourceText(e) + rest) == Some((e, rest))
  {
    match e
    case Lit(v) => LiteralOperand(v, false, names, rest);
    case Attr(a) =>
      OneToken(Bare(Path(a)));
      hide ReadUnary, Path;
      AttributeOperand(a, rest);
    case Has(x, f) => HasOperand(x, f, names, rest);
    case ExistsEq(range, key) => ExistsOperand(range, key.s, names, rest);
    case FilterEq(range, f, key) => FilterOperand(range, f, key.s, names, rest);
    case _ =>
      hide ReadUnary, SourceText, MemberTail;
      RootedReads(e, names, rest);
      StopsMember(e, rest);
  }

  lemma LiteralOperand(v: Value, named: bool, names: set<string>, rest: string)
    requires WritesValue(v, named, names) && Stop(rest)
    ensures ReadUnary(Render(Literally(v, named)) + rest) == Some((Lit(v), rest))
  {
    match v
    case Str(s) =>
      StringTokenText(s, named);
      hide ReadUnary;
      StringOperand(s, named, rest);
    case List(vs) => ListOperand(vs, named, rest);
    case Null =>
      OneToken(Bare("null"));
      NullOperand(rest);
  }

  // ---- the texts of compound expressions

  lemma OrText(a: Expr, b: Expr)
    ensures SourceText(Or(a, b)) ==
            Between(OperandText(a, GroupedInOr(a)), "||", OperandText(b, b.Or? || GroupedInOr(b)))
  {
    var x, y := Operand(a, GroupedInOr(a)), Operand(b, b.Or? || GroupedInOr(b));
    assert Tokens(Or(a, b)) == x + Infix("||") + y;
    hide Tokens, Render, Operand, Infix;
    InfixText(x, "||", y);
    OperandRendered(a, GroupedInOr(a));
    OperandRendered(b, b.Or? || GroupedInOr(b));
  }

  lemma AndText(a: Expr, b: Expr)
    ensures SourceText(And(a, b)) == Between(OperandText(a, GroupedInAnd(a)), "&&", OperandText(b, GroupedInAnd(b)))
  {
    var x, y := Operand(a, GroupedInAnd(a)), Operand(b, GroupedInAnd(b));
    assert Tokens(And(a, b)) == x + Infix("&&") + y;
    hide Tokens, Render, Operand, Infix;
    InfixText(x, "&&", y);
    OperandRendered(a, GroupedInAnd(a));
    OperandRendered(b, GroupedInAnd(b));
  }

  /** The right side of a comparison: names are quoted as JSON. */
  function RightText(a: Expr, b: Expr): string {
    if Named(a) && b.Lit? then Render(Literally(b.v, true)) else OperandText(b, b.Cond?)
  }

  lemma ComparedText(e: Expr, op: string)
    requires e.Eq?
    ensures Render(Compared(e, op)) == Between(OperandText(e.left, e.left.Cond?), op, RightText(e.left, e.right))
  {
    var a, b := e.left, e.right;
    var x, y := Operand(a, a.Cond?), if Named(a) && b.Lit? then Literally(b.v, true) else Operand(b, b.Cond?);
    assert Compared(e, op) == x + Infix(op) + y;
    hide Tokens, Render, Operand, Infix, Literally, Compared;
    InfixText(x, op, y);
    OperandRendered(a, a.Cond?);
    OperandRendered(b, b.Cond?);
  }

  lemma EqText(e: Expr)
    requires e.Eq?
    ensures SourceText(e) == Between(OperandText(e.left, e.left.Cond?), "==", RightText(e.left, e.right))
    ensures SourceText(Not(e)) == Between(OperandText(e.left, e.left.Cond?), "!=", RightText(e.left, e.right))
  {
    ComparedText(e, "==");
    ComparedText(e, "!=");
    InequalityTokens(e);
    assert Tokens(e) == Compared(e, "==");
    hide Tokens, Compared, Render;
  }

  lemma InText(x: Expr, range: Expr)
    requires Atomic(range)
    ensures SourceText(In(x, range)) == Between(SourceText(x), "in", RightText(x, range))
  {
    MembershipTokens(x, range);
    hide Tokens, Render, Infix, Literally;
    InfixText(Tokens(x), "in", RangeTokens(x, range));
  }

  lemma CondText(t: Expr, a: Expr, b: Expr)
    ensures SourceText(Cond(t, a, b)) ==
            Between(Between(SourceText(t), "?", OperandText(a, a.Or?)), ":", OperandText(b, b.Or?))
  {
    var x, y := Operand(a, a.Or?), Operand(b, b.Or?);
    var head := Tokens(t) + Infix("?") + x;
    assert Tokens(Cond(t, a, b)) == head + Infix(":") + y;
    hide Tokens, Render, Operand, Infix;
    InfixText(head, ":", y);
    InfixText(Tokens(t), "?", x);
    OperandRendered(a, a.Or?);
    OperandRendered(b, b.Or?);
  }

  lemma NotText(x: Expr)
    requires !x.Eq?
    ensures SourceText(Not(x)) == "!" + OperandText(x, !x.Has? && !x.ExistsEq?)
  {
    var ts := Operand(x, !x.Has? && !x.ExistsEq?);
    assert Tokens(Not(x)) == [Bare("!")] + ts;
    hide Tokens, Render, Operand;
    TokenThen(Bare("!"), ts);
    OperandRendered(x, !x.Has? && !x.ExistsEq?);
  }

  // ---- what follows an operand

  predicate Operator(op: string) {
    op == "||" || op == "&&" || op == "==" || op == "!=" || op == "in" || op == "?" || op == ":"
  }

  /** An operator and what it is applied to. */
  function Next(op: string, z: string): string { " " + (op + (" " + z)) }

  lemma NextStops(op: string, z: string)
    requires Operator(op)
    ensures Stop(Next(op, z)) && Skip(Next(op, z)) == op + (" " + z)
    ensures (op + (" " + z))[|op|..] == " " + z
  {
    var t := op + (" " + z);
    SkipBlank(t);
    assert t[0] == op[0];
    SkipInk(t);
  }

  lemma NextEnds(op: string, z: string)
    requires Operator(op)
    ensures op == "||" || op == "&&" || op == "?" || op == ":" ==> NoRelation(Next(op, z))
    ensures op == "||" || op == "?" || op == ":" ==> NoAnd(Next(op, z))
    ensures op == "?" || op == ":" ==> NoOr(Next(op, z))
    ensures op == ":" ==> NoCond(Next(op, z))
  {
    NextStops(op, z);
    var t := op + (" " + z);
    assert t[0] == op[0] && (|op| == 2 ==> t[1] == op[1]) && (|op| == 1 ==> t[1] == ' ');
    hide Skip;
  }

  // ---- one step of each level

  lemma NotStep(s: string, x: Expr, rest: string)
    requires ReadUnary(s) == Some((x, rest))
    ensures ReadUnary("!" + s) == Some((Not(x), rest))
  {
    var text := "!" + s;
    SkipInk(text);
    assert text[1..] == s;
    hide ReadPrimary, MemberTail;
  }

  lemma GroupStep(s: string, e: Expr, rest: string)
    requires ReadExpr(s) == Some((e, ")" + rest)) && Stop(rest)
    ensures ReadUnary("(" + s) == Some((e, rest))
  {
    var text := "(" + s;
    assert text[1..] == s;
    CloseEnds(rest);
    PrimaryFirst(text);
    hide ReadExpr, ReadUnary, Skip;
    assert ReadPrimary(text) == Some((e, rest));
    hide ReadPrimary;
    StopsMember(e, rest);
  }

  lemma RelationLeaf(text: string, e: Expr, rest: string)
    requires ReadUnary(text) == Some((e, rest)) && NoRelation(rest)
    ensures ReadRelation(text) == Some((e, rest))
  {
    hide ReadUnary, Skip;
  }

  function Related(a: Expr, op: string, b: Expr): Expr {
    if op == "in" then In(a, b) else if op == "!=" then Not(Eq(a, b)) else Eq(a, b)
  }

  lemma RelationStep(text: string, a: Expr, op: string, z: string, b: Expr, rest: string)
    requires op == "==" || op == "!=" || op == "in"
    requires ReadUnary(text) == Some((a, Next(op, z))) && ReadUnary(z) == Some((b, rest))
    ensures ReadRelation(text) == Some((Related(a, op, b), rest))
  {
    NextStops(op, z);
    BlankBefore(z);
    var t := op + (" " + z);
    assert t[0] == op[0] && t[1] == op[1] && t[2] == ' ' && t[2..] == " " + z;
    hide ReadUnary, Skip, Next;
  }

  lemma AndFirst(text: string, e: Expr, rest: string)
    requires ReadRelation(text) == Some((e, rest))
    ensures ReadAnd(text) == AndTail(e, rest)
  {
    hide ReadRelation, AndTail;
  }

  lemma AndStep(acc: Expr, z: string, e: Expr, rest: string)
    requires ReadRelation(z) == Some((e, rest))
    ensures AndTail(acc, Next("&&", z)) == AndTail(And(acc, e), rest)
  {
    NextStops("&&", z);
    BlankBefore(z);
    var t := "&&" + (" " + z);
    assert t[0] == '&' && t[1] == '&';
    hide ReadRelation, Skip, Next;
  }

  lemma AndEnd(e: Expr, rest: string)
    requires NoAnd(rest)
    ensures AndTail(e, rest) == Some((e, rest))
  {}

  lemma OrFirst(text: string, e: Expr, rest: string)
    requires ReadAnd(text) == Some((e, rest))
    ensures ReadOr(text) == OrTail(e, rest)
  {
    hide ReadAnd, OrTail;
  }

  lemma OrStep(acc: Expr, z: string, e: Expr, rest: string)
    requires ReadAnd(z) == Some((e, rest))
    ensures OrTail(acc, Next("||", z)) == OrTail(Or(acc, e), rest)
  {
    NextStops("||", z);
    BlankBefore(z);
    var t := "||" + (" " + z);
    assert t[0] == '|' && t[1] == '|';
    hide ReadAnd, Skip, Next;
  }

  lemma OrEnd(e: Expr, rest: string)
    requires NoOr(rest)
    ensures OrTail(e, rest) == Some((e, rest))
  {}

  lemma ExprLeaf(text: string, e: Expr, rest: string)
    requires ReadOr(text) == Some((e, rest)) && NoCond(rest)
    ensures ReadExpr(text) == Some((e, rest))
  {
    hide ReadOr, Skip;
  }

  lemma CondStep(text: string, t: Expr, z: string, a: Expr, y: string, b: Expr, rest: string)
    requires ReadOr(text) == Some((t, Next("?", z))) && ReadOr(z) == Some((a, Next(":", y)))
    requires ReadExpr(y) == Some((b, rest))
    ensures ReadExpr(text) == Some((Cond(t, a, b), rest))
  {
    NextStops("?", z);
    NextStops(":", y);
    BlankBefore(z);
    BlankBefore(y);
    assert ("?" + (" " + z))[0] == '?' && (":" + (" " + y))[0] == ':';
    hide ReadOr, Skip, Next;
  }

  // ---- every text reads back

  predicate UnaryForm(e: Expr) { Atomic(e) || (e.Not? && !e.e.Eq?) }
  predicate RelationForm(e: Expr) { Atomic(e) || e.Not? || e.Eq? || e.In? }

  lemma {:induction false} UnaryReads(e: Expr, grouped: bool, names: set<string>, rest: string)
    requires Writes(e, names) && (grouped || UnaryForm(e)) && Stop(rest)
    ensures ReadUnary(OperandText(e, grouped) + rest) == Some((Read(e), rest))
    decreases e, grouped, 1
  {
    hide SourceText, ReadUnary, ReadExpr;
    if grouped {
      var end := ")" + rest;
      CloseEnds(rest);
      ExprReads(e, names, end);
      GroupStep(SourceText(e) + end, Read(e), rest);
      ConcatAssociative(SourceText(e), ")", rest);
      ConcatAssociative("(", SourceText(e) + ")", rest);
    } else if Atomic(e) {
      AtomicReads(e, names, rest);
    } else {
      var g := !e.e.Has? && !e.e.ExistsEq?;
      NotText(e.e);
      UnaryReads(e.e, g, names, rest);
      NotStep(OperandText(e.e, g) + rest, Read(e.e), rest);
      ConcatAssociative("!", OperandText(e.e, g), rest);
    }
  }

  /** The right side of a comparison reads back. */
  lemma {:induction false} RightReads(a: Expr, b: Expr, names: set<string>, rest: string)
    requires Atomic(b) || b.Cond?
    requires if Named(a) && b.Lit? then WritesValue(b.v, true, names) else Writes(b, names)
    requires Stop(rest)
    ensures ReadUnary(RightText(a, b) + rest) == Some((Read(b), rest))
    decreases b, true, 6
  {
    hide ReadUnary, SourceText, Render, WritesValue, Writes;
    if Named(a) && b.Lit? {
      LiteralOperand(b.v, true, names, rest);
    } else {
      UnaryReads(b, b.Cond?, names, rest);
    }
  }

  lemma {:induction false} ComparisonReads(
    e: Expr, a: Expr, op: string, b: Expr, text: string, names: set<string>, rest: string)
    requires a < e && b < e && (op == "==" || op == "!=" || op == "in")
    requires Writes(a, names) && (Atomic(a) || a.Cond?) && (Atomic(b) || b.Cond?) && Stop(rest)
    requires if Named(a) && b.Lit? then WritesValue(b.v, true, names) else Writes(b, names)
    requires text == Between(OperandText(a, a.Cond?), op, RightText(a, b))
    ensures ReadRelation(text + rest) == Some((Related(Read(a), op, Read(b)), rest))
    decreases e, false, 1
  {
    hide ReadUnary, SourceText, Render, WritesValue, Writes, RightText, OperandText;
    var z := RightText(a, b) + rest;
    BetweenThen(OperandText(a, a.Cond?), op, RightText(a, b), rest);
    NextStops(op, z);
    UnaryReads(a, a.Cond?, names, Next(op, z));
    RightReads(a, b, names, rest);
    RelationStep(text + rest, Read(a), op, z, Read(b), rest);
  }

  lemma {:induction false} RelationReads(e: Expr, grouped: bool, names: set<string>, rest: string)
    requires Writes(e, names) && (grouped || RelationForm(e)) && Stop(rest) && NoRelation(rest)
    ensures ReadRelation(OperandText(e, grouped) + rest) == Some((Read(e), rest))
    decreases e, grouped, 2
  {
    hide SourceText, ReadUnary, ReadRelation, WritesValue;
    if grouped || UnaryForm(e) {
      UnaryReads(e, grouped, names, rest);
      RelationLeaf(OperandText(e, grouped) + rest, Read(e), rest);
    } else if e.In? {
      InText(e.e, e.range);
      ComparisonReads(e, e.e, "in", e.range, SourceText(e), names, rest);
    } else {
      var eq := if e.Eq? then e else e.e;
      EqText(eq);
      ComparisonReads(eq, eq.left, if e.Eq? then "==" else "!=", eq.right, SourceText(e), names, rest);
    }
  }

  lemma {:induction false} OntoReads(acc: Expr, e: Expr, grouped: bool, names: set<string>, rest: string)
    requires Writes(e, names) && (grouped || RelationForm(e) || e.And?) && Stop(rest) && NoRelation(rest)
    ensures AndTail(acc, Next("&&", OperandText(e, grouped) + rest)) ==
            AndTail(if e.And? && !grouped then Onto(acc, e) else And(acc, Read(e)), rest)
    decreases e, grouped, 3
  {
    hide SourceText, ReadRelation, AndTail, OperandText;
    if e.And? && !grouped {
      var a, b := e.left, e.right;
      var x, y := OperandText(a, GroupedInAnd(a)), OperandText(b, GroupedInAnd(b));
      var tail := Next("&&", y + rest);
      AndText(a, b);
      UngroupedText(e);
      BetweenThen(x, "&&", y, rest);
      NextStops("&&", y + rest);
      NextEnds("&&", y + rest);
      hide Next, NoRelation, Stop;
      OntoReads(acc, a, GroupedInAnd(a), names, tail);
      OntoReads(Onto(acc, a), b, GroupedInAnd(b), names, rest);
    } else {
      RelationReads(e, grouped, names, rest);
      AndStep(acc, OperandText(e, grouped) + rest, Read(e), rest);
    }
  }

  lemma UngroupedText(e: Expr)
    ensures OperandText(e, false) == SourceText(e)
  {
    hide SourceText;
  }

  lemma {:induction false} AndReads(e: Expr, grouped: bool, names: set<string>, rest: string)
    requires Writes(e, names) && (grouped || RelationForm(e) || e.And?) && Stop(rest) && NoRelation(rest)
    ensures ReadAnd(OperandText(e, grouped) + rest) == AndTail(Read(e), rest)
    decreases e, grouped, 3
  {
    hide SourceText, ReadRelation, ReadAnd, AndTail, OperandText;
    if e.And? && !grouped {
      var a, b := e.left, e.right;
      var x, y := OperandText(a, GroupedInAnd(a)), OperandText(b, GroupedInAnd(b));
      AndText(a, b);
      UngroupedText(e);
      BetweenThen(x, "&&", y, rest);
      NextStops("&&", y + rest);
      NextEnds("&&", y + rest);
      hide Next, NoRelation, Stop;
      AndReads(a, GroupedInAnd(a), names, Next("&&", y + rest));
      OntoReads(Read(a), b, GroupedInAnd(b), names, rest);
    } else {
      RelationReads(e, grouped, names, rest);
      AndFirst(OperandText(e, grouped) + rest, Read(e), rest);
    }
  }

  lemma {:induction false} OrReads(e: Expr, grouped: bool, names: set<string>, rest: string)
    requires Writes(e, names) && (grouped || !e.Cond?) && Stop(rest) && NoRelation(rest) && NoAnd(rest)
    ensures ReadOr(OperandText(e, grouped) + rest) == OrTail(Read(e), rest)
    decreases e, grouped, 4
  {
    hide SourceText, ReadAnd, ReadOr, AndTail, OrTail, OperandText;
    if e.Or? && !grouped {
      var a, b := e.left, e.right;
      var g := b.Or? || GroupedInOr(b);
      var x, y := OperandText(a, GroupedInOr(a)), OperandText(b, g);
      OrText(a, b);
      UngroupedText(e);
      BetweenThen(x, "||", y, rest);
      NextStops("||", y + rest);
      NextEnds("||", y + rest);
      AndReads(b, g, names, rest);
      AndEnd(Read(b), rest);
      hide Next, NoRelation, NoAnd, Stop;
      OrReads(a, GroupedInOr(a), names, Next("||", y + rest));
      OrStep(Read(a), y + rest, Read(b), rest);
    } else {
      AndReads(e, grouped, names, rest);
      AndEnd(Read(e), rest);
      OrFirst(OperandText(e, grouped) + rest, Read(e), rest);
    }
  }

  /** Both branches of a conditional, and a whole expression that is none. */
  lemma {:induction false} BranchReads(e: Expr, grouped: bool, names: set<string>, rest: string)
    requires Writes(e, names) && !e.Cond? && Stop(rest) && NoRelation(rest) && NoAnd(rest) && NoOr(rest)
    ensures ReadOr(OperandText(e, grouped) + rest) == Some((Read(e), rest))
    decreases e, grouped, 5
  {
    hide ReadOr, OrTail, OperandText;
    OrReads(e, grouped, names, rest);
    OrEnd(Read(e), rest);
  }

  lemma {:induction false} ExprReads(e: Expr, names: set<string>, rest: string)
    requires Writes(e, names) && Ended(rest)
    ensures ReadExpr(SourceText(e) + rest) == Some((Read(e), rest))
    decreases e, false, 6
  {
    hide SourceText, ReadOr, ReadExpr, OperandText;
    if e.Cond? {
      var t, a, b := e.test, e.yes, e.no;
      var y := OperandText(b, b.Or?) + rest;
      var z := OperandText(a, a.Or?) + Next(":", y);
      CondText(t, a, b);
      UngroupedText(t);
      BetweenThen(Between(SourceText(t), "?", OperandText(a, a.Or?)), ":", OperandText(b, b.Or?), rest);
      BetweenThen(SourceText(t), "?", OperandText(a, a.Or?), Next(":", y));
      NextStops("?", z);
      NextEnds("?", z);
      NextStops(":", y);
      NextEnds(":", y);
      BranchReads(b, b.Or?, names, rest);
      ExprLeaf(y, Read(b), rest);
      hide Next, NoRelation, NoAnd, NoOr, Stop;
      BranchReads(t, false, names, Next("?", z));
      BranchReads(a, a.Or?, names, Next(":", y));
      CondStep(SourceText(e) + rest, Read(t), z, Read(a), y, Read(b), rest);
    } else {
      UngroupedText(e);
      BranchReads(e, false, names, rest);
      ExprLeaf(SourceText(e) + rest, Read(e), rest);
    }
  }

  // ---------------------------------------------------------------- the theorem

  lemma TextIsSolid(e: Expr, names: set<string>)
    requires Writes(e, names)
    ensures Solid(SourceText(e))
  {
    hide Writes, Tokens, Solid, Spaced, Render;
    WritesSpelled(e, names);
    SpacedTokens(e);
    SpacedIsSolid(Tokens(e), true, names);
  }

  lemma CompiledAsRead(e: Expr, names: set<string>)
    requires Writes(e, names)
    ensures Compile(Reader, SourceText(e)) == Some(Read(e))
  {
    hide SourceText, Read, Writes, ReadExpr, Solid, Program;
    SourceTextSoundIff(e, names);
    TextIsSolid(e, names);
    WholeText(e, names);
    SolidIsProgram(SourceText(e));
  }

  lemma WholeText(e: Expr, names: set<string>)
    requires Writes(e, names)
    ensures Reader(SourceText(e)) == Some(Read(e))
  {
    assert Ended("") && Skip("") == "";
    hide SourceText, ReadExpr, Read, Writes, Ended, Skip;
    assert SourceText(e) + "" == SourceText(e);
    ExprReads(e, names, "");
  }

  /** The reader gives every text the operator can spell the meaning of its expression. */
  lemma ReaderReads(e: Expr, names: set<string>)
    requires Writes(e, names)
    ensures Means(Compile(Reader, SourceText(e)), e)
  {
    hide SourceText, Compile, Read, Writes;
    CompiledAsRead(e, names);
    forall r ensures Eval(Read(e), r) == Eval(e, r) { ReadKeepsMeaning(e, r); }
  }

  // ---------------------------------------------------------------- texts that end in some other literal

  lemma ClosableStep(body: string)
    requires Closable(body) && body != ""
    ensures body[0] != '"'
    ensures body[0] != '\\' ==> Closable(body[1..])
    ensures body[0] == '\\' ==> |body| >= 2 && Closable(body[2..])
  {
    var m, rest := Inside('"'), body[1..];
    var next := Advance(m, body[0]);
    assert Contained(rest, next) && FinalMode(rest, next) == FinalMode(body, m) == m;
    if body[0] == '\\' {
      assert next == Escape('"') && rest != "";
      assert Contained(rest[1..], m) && FinalMode(rest[1..], m) == m && rest[1..] == body[2..];
    }
  }

  lemma ClosableTame(body: string, n: nat)
    requires Closable(body) && n <= |body| && forall i :: 0 <= i < n ==> body[i] != '\\'
    ensures Closable(body[n..])
  {
    if n > 0 {
      ClosableStep(body);
      hide Closable;
      ClosableTame(body[1..], n - 1);
      assert body[1..][n - 1..] == body[n..];
    }
  }

  lemma FirstTakes(s: string) returns (next: nat)
    requires s != "" && FirstDecoded(s).Some?
    ensures 0 < next <= |s| && FirstDecoded(s).value.1 == s[next..]
    ensures if s[0] != '\\' then next == 1 else next == 2 || (next == 6 && HexCode(s[2..6]).Some?)
  {
    hide HexCode, Unescaped;
    next := if s[0] != '\\' then 1 else if |s| >= 6 && s[1] == 'u' then 6 else 2;
  }

  /** Decoding one character of such a literal leaves such a literal. */
  lemma ClosableFirst(body: string) returns (next: nat)
    requires Closable(body) && body != "" && FirstDecoded(body + "\"").Some?
    ensures 0 < next <= |body| && Closable(body[next..])
    ensures FirstDecoded(body + "\"").value.1 == body[next..] + "\""
  {
    hide FirstDecoded, HexCode, Closable;
    ClosableStep(body);
    var s := body + "\"";
    assert s[0] == body[0];
    next := FirstTakes(s);
    if next == 6 {
      HexIsTame(s[2..6]);
      assert s[5] == s[2..6][3] != '"';
      assert forall i :: 0 <= i < 4 ==> body[2..][i] == s[2..6][i];
      ClosableTame(body[2..], 4);
      assert body[2..][4..] == body[6..];
    }
    assert s[next..] == body[next..] + "\"";
  }

  /** Reading such a literal as JSON, if it can be read, ends where the literal does. */
  lemma {:induction false} ClosableReads(body: string)
    requires Closable(body)
    ensures var r := ReadJson(body + "\""); r.Some? ==> r.value.1 == ""
    decreases |body|
  {
    var s := body + "\"";
    if body == "" {
      assert s == "\"" && s[1..] == "";
    } else {
      ClosableStep(body);
      hide Closable, FirstDecoded;
      assert s[0] == body[0];
      if FirstDecoded(s).Some? {
        var next := ClosableFirst(body);
        ClosableReads(body[next..]);
      }
    }
  }

  lemma HexIsTame(s: string)
    requires |s| == 4 && HexCode(s).Some?
    ensures forall i :: 0 <= i < 4 ==> s[i] != '\\' && s[i] != '"'
  {}

  lemma EnclosedReads(body: string)
    requires Closable(body)
    ensures ReadUnary(Enclosed(body)) ==
            var r := ReadJson(body + "\""); if r.None? then None else Some((Lit(Str(r.value.0)), ""))
  {
    ClosableReads(body);
    var text := Enclosed(body);
    assert text[0] == '"' && text[1..] == body + "\"";
    hide ReadJson, Closable, Enclosed;
    PrimaryFirst(text);
    if ReadJson(body + "\"").Some? { StopsMember(Lit(Str(ReadJson(body + "\"").value.0)), ""); }
    hide ReadUnary, MemberTail;
  }

  lemma RelationFails(text: string, a: Expr, op: string, z: string)
    requires op == "==" || op == "!=" || op == "in"
    requires ReadUnary(text) == Some((a, Next(op, z))) && ReadUnary(z) == None
    ensures ReadRelation(text) == None
  {
    NextStops(op, z);
    BlankBefore(z);
    var t := op + (" " + z);
    assert t[0] == op[0] && t[1] == op[1] && t[2] == ' ' && t[2..] == " " + z;
    hide ReadUnary, Skip, Next;
  }

  lemma OrFails(acc: Expr, z: string)
    requires ReadRelation(z) == None
    ensures OrTail(acc, Next("||", z)) == None
  {
    NextStops("||", z);
    BlankBefore(z);
    var t := "||" + (" " + z);
    assert t[0] == '|' && t[1] == '|';
    hide ReadRelation, Skip, Next;
  }

  function EndingText(x: Expr, a: Attribute, literal: string): string {
    SourceText(x) + Next("||", Path(a) + Next("!=", literal))
  }

  /** A rule whose last comparison is with any literal at all reads as that rule over some name, or not at all. */
  lemma EndingReads(x: Expr, a: Attribute, body: string, names: set<string>)
    requires Writes(x, names) && x.Or? && Closable(body)
    ensures var r := Reader(EndingText(x, a, Enclosed(body)));
            r.Some? ==> exists n :: r.value == Or(Read(x), Not(Eq(Attr(a), Lit(Str(n)))))
  {
    var literal := Enclosed(body);
    var z := Path(a) + Next("!=", literal);
    var text := SourceText(x) + Next("||", z);
    NextStops("!=", literal);
    NextStops("||", z);
    NextEnds("||", z);
    AttributeOperand(a, Next("!=", literal));
    EnclosedReads(body);
    assert NoAnd("") && NoOr("") && NoCond("") && Skip("") == "";
    UngroupedText(x);
    hide SourceText, OperandText, Next, Path, ReadUnary, ReadRelation, ReadAnd, ReadOr, ReadExpr, OrTail, AndTail,
         NoRelation, NoAnd, NoOr, NoCond, Stop, Skip, ReadJson, Closable, Enclosed, Read, Writes;
    OrReads(x, false, names, Next("||", z));
    var r := ReadJson(body + "\"");
    if r.None? {
      RelationFails(z, Attr(a), "!=", literal);
      OrFails(Read(x), z);
      ExprFails(text);
    } else {
      var last := Not(Eq(Attr(a), Lit(Str(r.value.0))));
      RelationStep(z, Attr(a), "!=", literal, Lit(Str(r.value.0)), "");
      AndFirst(z, last, "");
      AndEnd(last, "");
      OrStep(Read(x), z, last, "");
      OrEnd(Or(Read(x), last), "");
      ExprLeaf(text, Or(Read(x), last), "");
    }
  }

  lemma ExprFails(text: string)
    requires ReadOr(text) == None
    ensures Reader(text) == None
  {
    hide ReadOr;
  }

  lemma OperatorsAreBare()
    ensures BareText("||") && BareText("!=")
  {}

  lemma EndingIsSolid(x: Expr, a: Attribute, body: string, names: set<string>)
    requires Writes(x, names) && Closable(body)
    ensures Solid(EndingText(x, a, Enclosed(body)))
  {
    var literal := Enclosed(body);
    LiteralIsSolid('"', body);
    assert ['"'] + body + ['"'] == literal;
    OperatorsAreBare();
    hide Solid, Path, Closable, Enclosed, SourceText, BareText, Writes;
    TextIsSolid(x, names);
    PathIsBare(a);
    BareIsSolid("||");
    BareIsSolid("!=");
    BareIsSolid(Path(a));
    SolidBlank("!=", literal);
    SolidBlank(Path(a), "!=" + (" " + literal));
    SolidBlank("||", Path(a) + (" " + ("!=" + (" " + literal))));
    SolidBlank(SourceText(x), "||" + (" " + (Path(a) + (" " + ("!=" + (" " + literal))))));
  }

  lemma EndingCompiles(x: Expr, a: Attribute, body: string, names: set<string>)
    requires Writes(x, names) && x.Or? && Closable(body)
    ensures var c := Compile(Reader, EndingText(x, a, Enclosed(body)));
            c.Some? ==> exists n :: Means(c, Or(x, Not(Eq(Attr(a), Lit(Str(n))))))
  {
    var text := EndingText(x, a, Enclosed(body));
    EndingIsSolid(x, a, body, names);
    SolidIsProgram(text);
    EndingReads(x, a, body, names);
    hide EndingText, Solid, Program, Reader, Closable, Enclosed, Writes;
    if Compile(Reader, text).Some? {
      var n :| Reader(text).value == Or(Read(x), Not(Eq(Attr(a), Lit(Str(n)))));
      var e := Or(x, Not(Eq(Attr(a), Lit(Str(n)))));
      forall r ensures Eval(Or(Read(x), Not(Eq(Attr(a), Lit(Str(n))))), r) == Eval(e, r) { ReadKeepsMeaning(x, r); }
      assert Means(Compile(Reader, text), e);
    }
  }
}
