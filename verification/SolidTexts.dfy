/**
 Texts in which the scanner finds nothing to discard: white space stands between their tokens one blank
 at a time. All texts the operator spells are of this kind.
 */
module SolidTexts {
  import opened Common
  import opened Cel
  import opened ExpressionText
  import opened ExpressionSource
  import opened NameVariants

  /** The scanner passes the text on as it is, in code, whatever stands before and behind it. */
  ghost predicate Solid(t: string) {
    forall rest, started, gap ::
      Scanned(t + rest, Code, started, gap) ==
      (if started && gap then " " else "") + (t + Scanned(rest, Code, true, false))
  }

  lemma SolidAppend(a: string, b: string)
    requires Solid(a) && Solid(b)
    ensures Solid(a + b)
  {
    hide Scanned;
    forall rest, started, gap
      ensures Scanned(a + b + rest, Code, started, gap) ==
              (if started && gap then " " else "") + (a + b + Scanned(rest, Code, true, false))
    {
      var after := Scanned(rest, Code, true, false);
      ConcatAssociative(a, b, rest);
      ConcatAssociative(a, b, after);
      assert Scanned(a + (b + rest), Code, started, gap) ==
             (if started && gap then " " else "") + (a + Scanned(b + rest, Code, true, false));
      assert Scanned(b + rest, Code, true, false) == "" + (b + after) == b + after;
    }
  }

  /** A single blank between solid texts is kept. */
  lemma SolidBlank(a: string, b: string)
    requires Solid(a) && Solid(b)
    ensures Solid(a + (" " + b))
  {
    forall rest, started, gap
      ensures Scanned(a + (" " + b) + rest, Code, started, gap) ==
              (if started && gap then " " else "") + (a + (" " + b) + Scanned(rest, Code, true, false))
    {
      var after := Scanned(rest, Code, true, false);
      BlankScans(b + rest);
      hide Scanned;
      ConcatAssociative(" ", b, rest);
      ConcatAssociative(a, " " + b, rest);
      ConcatAssociative(" ", b, after);
      ConcatAssociative(a, " " + b, after);
      assert Scanned(a + (" " + (b + rest)), Code, started, gap) ==
             (if started && gap then " " else "") + (a + Scanned(" " + (b + rest), Code, true, false));
      assert Scanned(b + rest, Code, true, true) == " " + (b + after);
    }
  }

  lemma BlankScans(s: string)
    ensures Scanned(" " + s, Code, true, false) == Scanned(s, Code, true, true)
  {
    assert (" " + s)[1..] == s;
  }

  lemma BareIsSolid(s: string)
    requires s != "" && BareText(s)
    ensures Solid(s)
  {
    hide Scanned, BareText;
    forall rest, started, gap
      ensures Scanned(s + rest, Code, started, gap) ==
              (if started && gap then " " else "") + (s + Scanned(rest, Code, true, false))
    {
      BareScanned(s, rest, started, gap);
    }
  }

  lemma {:induction false} BareScanned(s: string, rest: string, started: bool, gap: bool)
    requires s != "" && BareText(s)
    ensures Scanned(s + rest, Code, started, gap) ==
            (if started && gap then " " else "") + (s + Scanned(rest, Code, true, false))
    decreases |s|
  {
    var lead, tail := if started && gap then " " else "", Scanned(rest, Code, true, false);
    assert (s + rest)[1..] == s[1..] + rest && s == [s[0]] + s[1..] && BareChar(s[0]);
    if |s| == 1 {
      assert s[1..] + rest == rest;
      ConcatAssociative(lead, s, tail);
    } else {
      BareScanned(s[1..], rest, true, false);
      var more := s[1..] + tail;
      assert "" + more == more;
      assert Scanned(s + rest, Code, started, gap) == lead + [s[0]] + more;
      hide Scanned, BareText;
      ConcatAssociative(lead, [s[0]], more);
      ConcatAssociative([s[0]], s[1..], tail);
    }
  }

  /** Inside a literal everything is kept. */
  lemma {:induction false} ScannedInside(s: string, m: Mode, rest: string)
    requires Contained(s, m)
    ensures Scanned(s + rest, m, true, false) == s + Scanned(rest, FinalMode(s, m), true, false)
  {
    if s == "" {
      assert s + rest == rest;
    } else {
      assert (s + rest)[1..] == s[1..] + rest && s == [s[0]] + s[1..];
      ScannedInside(s[1..], Advance(m, s[0]), rest);
    }
  }

  lemma QuoteScans(q: char, s: string, started: bool, gap: bool)
    requires Quote(q)
    ensures Scanned([q] + s, Code, started, gap) ==
            (if started && gap then " " else "") + ([q] + Scanned(s, Inside(q), true, false))
    ensures Scanned([q] + s, Inside(q), true, false) == [q] + Scanned(s, Code, true, false)
  {
    assert ([q] + s)[1..] == s;
  }

  lemma QuotedThen(q: char, body: string, rest: string)
    ensures [q] + body + [q] + rest == [q] + (body + ([q] + rest))
  {}

  lemma LiteralIsSolid(q: char, body: string)
    requires Quote(q) && Contained(body, Inside(q)) && FinalMode(body, Inside(q)) == Inside(q)
    ensures Solid([q] + body + [q])
  {
    hide Scanned, Contained, FinalMode;
    forall rest, started, gap
      ensures Scanned([q] + body + [q] + rest, Code, started, gap) ==
              (if started && gap then " " else "") + ([q] + body + [q] + Scanned(rest, Code, true, false))
    {
      QuotedThen(q, body, rest);
      QuotedThen(q, body, Scanned(rest, Code, true, false));
      QuoteScans(q, body + ([q] + rest), started, gap);
      ScannedInside(body, Inside(q), [q] + rest);
      QuoteScans(q, rest, true, false);
    }
  }

  lemma {:induction false} TameIsContained(s: string, q: char)
    requires LiteralText(s) && Quote(q)
    ensures Contained(s, Inside(q)) && FinalMode(s, Inside(q)) == Inside(q)
  {
    if s != "" { TameIsContained(s[1..], q); }
  }

  lemma TokenIsSolid(t: Token, names: set<string>)
    requires Valid(t, names) && !t.Gap?
    ensures Solid(SpellToken(t))
  {
    hide Contained, FinalMode, Solid, Body;
    match t
    case Bare(s) => BareIsSolid(s);
    case Single(s) =>
      TameIsContained(s, '\'');
      LiteralIsSolid('\'', s);
      assert ['\''] + s + ['\''] == "'" + s + "'";
    case Json(s) =>
      BodyIsSteady(s);
      BodyStaysInside(s, '"');
      LiteralIsSolid('"', Body(s));
      assert ['"'] + Body(s) + ['"'] == Quoted(s);
  }

  /** Blanks stand between other tokens only, one at a time. */
  predicate Spaced(ts: seq<Token>) {
    ts != [] && forall i :: 0 <= i < |ts| && ts[i].Gap? ==> 0 < i < |ts| - 1 && !ts[i + 1].Gap?
  }

  lemma {:induction false} SpacedIsSolid(ts: seq<Token>, open: bool, names: set<string>)
    requires Spaced(ts) && Fit(ts, open, names)
    ensures Solid(Render(ts))
    decreases |ts|
  {
    var t, rest := ts[0], ts[1..];
    TokenIsSolid(t, names);
    if rest == [] {
      OneToken(t);
      assert ts == [t];
    } else if rest[0].Gap? {
      var more := rest[1..];
      assert forall i :: 0 <= i < |more| ==> more[i] == ts[i + 2];
      SpacedIsSolid(more, Opens(rest[0]), names);
      hide Solid;
      SolidBlank(SpellToken(t), Render(more));
    } else {
      assert forall i :: 0 <= i < |rest| ==> rest[i] == ts[i + 1];
      SpacedIsSolid(rest, Opens(t), names);
      hide Solid;
      SolidAppend(SpellToken(t), Render(rest));
    }
  }

  lemma SpacedAppend(a: seq<Token>, b: seq<Token>)
    requires Spaced(a) && Spaced(b)
    ensures Spaced(a + b) && Spaced(a + [Gap] + b)
  {
    var ts := a + [Gap] + b;
    forall i | 0 <= i < |ts| && ts[i].Gap? ensures 0 < i < |ts| - 1 && !ts[i + 1].Gap? {
      if i < |a| {
        assert a[i].Gap?;
      } else if i == |a| {
        assert ts[i + 1] == b[0];
      } else {
        assert b[i - |a| - 1].Gap?;
      }
    }
  }

  lemma SpacedInfix(a: seq<Token>, op: string, b: seq<Token>)
    requires Spaced(a) && Spaced(b)
    ensures Spaced(a + Infix(op) + b)
  {
    assert Spaced([Bare(op)]);
    SpacedAppend([Bare(op)], b);
    hide Spaced;
    SpacedAppend(a, [Bare(op)] + [Gap] + b);
    assert a + [Gap] + ([Bare(op)] + [Gap] + b) == a + Infix(op) + b;
  }

  lemma SpacedParens(ts: seq<Token>)
    requires Spaced(ts)
    ensures Spaced(Parens(ts))
  {
    assert Spaced([Bare("(")]) && Spaced([Bare(")")]);
    hide Spaced;
    SpacedAppend([Bare("(")], ts);
    SpacedAppend([Bare("(")] + ts, [Bare(")")]);
  }

  lemma {:induction false} SpacedItems(vs: seq<Value>, named: bool)
    requires vs != []
    ensures Spaced(Items(vs, named))
  {
    var s := if vs[0].Str? then vs[0].s else "";
    var t := if named then Json(s) else Single(s);
    ItemsStep(vs, named);
    assert Spaced([t]) && Spaced([t] + [Bare(",")]);
    if |vs| > 1 {
      SpacedItems(vs[1..], named);
      var more := Items(vs[1..], named);
      hide Spaced, Items;
      SpacedAppend([t] + [Bare(",")], more);
      assert [t] + [Bare(",")] + [Gap] + more == [t] + ([Bare(",")] + ([Gap] + more));
    }
  }

  lemma SpacedLiteral(v: Value, named: bool)
    ensures Spaced(Literally(v, named))
  {
    if v.List? && v.items != [] {
      var items := Items(v.items, named);
      SpacedItems(v.items, named);
      assert Spaced([Bare("[")]) && Spaced([Bare("]")]);
      hide Spaced;
      SpacedAppend([Bare("[")], items);
      SpacedAppend([Bare("[")] + items, [Bare("]")]);
    } else if v.List? {
      ItemsStep(v.items, named);
    }
  }

  lemma SpacedTest(ts: seq<Token>, head: string, element: string, key: Value)
    requires Spaced(ts)
    ensures Spaced(ts + [Bare(head), Gap, Bare(element)] + Infix("==") + Literally(key, false) + [Bare(")")])
  {
    var macro := [Bare(head), Gap, Bare(element)];
    SpacedLiteral(key, false);
    assert Spaced(macro) && Spaced([Bare(")")]);
    hide Spaced, Literally;
    SpacedAppend(ts, macro);
    SpacedInfix(ts + macro, "==", Literally(key, false));
    SpacedAppend(ts + macro + Infix("==") + Literally(key, false), [Bare(")")]);
  }

  lemma {:induction false} SpacedOperand(e: Expr, grouped: bool)
    requires Spaced(Tokens(e))
    ensures Spaced(Operand(e, grouped))
  {
    hide Spaced, Tokens;
    SpacedParens(Tokens(e));
  }

  lemma {:induction false} SpacedRight(a: Expr, b: Expr, grouped: bool)
    ensures Spaced(if Named(a) && b.Lit? then Literally(b.v, true) else Operand(b, grouped))
    decreases b, 2
  {
    hide Spaced, Literally;
    if Named(a) && b.Lit? {
      SpacedLiteral(b.v, true);
    } else {
      SpacedTokens(b);
      SpacedOperand(b, grouped);
    }
  }

  lemma {:induction false} SpacedCompared(e: Expr, op: string)
    requires e.Eq?
    ensures Spaced(Compared(e, op))
    decreases e, 0
  {
    var a, b := e.left, e.right;
    SpacedTokens(a);
    SpacedRight(a, b, b.Cond?);
    hide Spaced, Literally, Tokens;
    SpacedOperand(a, a.Cond?);
    SpacedInfix(Operand(a, a.Cond?), op,
                if Named(a) && b.Lit? then Literally(b.v, true) else Operand(b, b.Cond?));
  }

  /** The operator's spelling keeps tokens apart by single blanks. */
  lemma {:induction false} SpacedTokens(e: Expr)
    ensures Spaced(Tokens(e))
    decreases e, 1
  {
    match e
    case Lit(v) => SpacedLiteral(v, false);
    case Select(x, f) =>
      SpacedTokens(x);
      var tail := if Identifier(f) then [Bare("." + f)] else [Bare("["), Single(f), Bare("]")];
      assert Spaced(tail) && Tokens(e) == Tokens(x) + tail;
      SpacedAppend(Tokens(x), tail);
    case Has(x, f) =>
      SpacedTokens(x);
      assert Spaced([Bare("has(")]) && Spaced([Bare("." + f + ")")]);
      hide Spaced;
      SpacedAppend([Bare("has(")], Tokens(x));
      SpacedAppend([Bare("has(")] + Tokens(x), [Bare("." + f + ")")]);
    case Not(x) =>
      if x.Eq? {
        SpacedCompared(x, "!=");
      } else {
        SpacedTokens(x);
        assert Spaced([Bare("!")]);
        SpacedAppend([Bare("!")], Tokens(x));
        SpacedParens(Tokens(x));
        SpacedAppend([Bare("!")], Parens(Tokens(x)));
      }
    case Or(a, b) =>
      SpacedTokens(a);
      SpacedTokens(b);
      SpacedOperand(a, GroupedInOr(a));
      SpacedOperand(b, b.Or? || GroupedInOr(b));
      SpacedInfix(Operand(a, GroupedInOr(a)), "||", Operand(b, b.Or? || GroupedInOr(b)));
    case And(a, b) =>
      SpacedTokens(a);
      SpacedTokens(b);
      SpacedOperand(a, GroupedInAnd(a));
      SpacedOperand(b, GroupedInAnd(b));
      SpacedInfix(Operand(a, GroupedInAnd(a)), "&&", Operand(b, GroupedInAnd(b)));
    case Eq(a, b) => SpacedCompared(e, "==");
    case In(x, range) =>
      SpacedTokens(x);
      SpacedRight(x, range, false);
      MembershipTokens(x, range);
      SpacedInfix(Tokens(x), "in", RangeTokens(x, range));
    case Cond(t, a, b) =>
      SpacedTokens(t);
      SpacedTokens(a);
      SpacedTokens(b);
      SpacedOperand(a, a.Or?);
      SpacedOperand(b, b.Or?);
      SpacedInfix(Tokens(t), "?", Operand(a, a.Or?));
      SpacedInfix(Tokens(t) + Infix("?") + Operand(a, a.Or?), ":", Operand(b, b.Or?));
    case ExistsEq(range, key) =>
      SpacedTokens(range);
      SpacedTest(Tokens(range), ".exists(f,", "f", key);
    case FilterEq(range, f, key) =>
      SpacedTokens(range);
      SpacedTest(Tokens(range), ".filter(c,", "c." + f, key);
    case _ =>
  }

  lemma SolidIsProgram(t: string)
    requires Solid(t)
    ensures Program(t) == t
  {
    assert t + "" == t && Scanned("", Code, true, false) == "";
    assert Scanned(t + "", Code, false, false) == "" + (t + Scanned("", Code, true, false));
  }
}
