/** How the reader takes in operands: literals, attributes, members and macros, as the operator spells them. */
module CelOperands {
  import opened Common
  import opened Cel
  import opened ExpressionText
  import opened ExpressionSource
  import opened CelReader

  // ---------------------------------------------------------------- what may follow

  /** The rest does not go on with the word or member before it. */
  predicate Stop(rest: string) { rest == "" || (!Letter(rest[0]) && rest[0] !in ".[(") }

  predicate NoRelation(rest: string) {
    var t := Skip(rest); !AtPair(t, '=', '=') && !AtPair(t, '!', '=') && !AtIn(t)
  }
  predicate NoAnd(rest: string) { !AtPair(Skip(rest), '&', '&') }
  predicate NoOr(rest: string) { !AtPair(Skip(rest), '|', '|') }
  predicate NoCond(rest: string) { !At(Skip(rest), '?') }

  /** Nothing in the rest belongs to the expression before it. */
  predicate Ended(rest: string) { Stop(rest) && NoRelation(rest) && NoAnd(rest) && NoOr(rest) && NoCond(rest) }

  lemma SkipBlank(s: string)
    ensures Skip(" " + s) == Skip(s)
  {
    assert (" " + s)[1..] == s;
  }

  lemma SkipInk(s: string)
    requires s != "" && !CelWhite(s[0])
    ensures Skip(s) == s
  {}

  /** Reading starts by skipping blanks, at every level. */
  lemma BlankBefore(s: string)
    ensures ReadUnary(" " + s) == ReadUnary(s) && ReadRelation(" " + s) == ReadRelation(s)
    ensures ReadAnd(" " + s) == ReadAnd(s) && ReadOr(" " + s) == ReadOr(s) && ReadExpr(" " + s) == ReadExpr(s)
  {
    SkipBlank(s);
    hide Skip, ReadPrimary, MemberTail, AndTail, OrTail;
  }

  lemma {:induction false} RunOf(word: string, rest: string)
    requires (forall i :: 0 <= i < |word| ==> Letter(word[i])) && (rest != "" ==> !Letter(rest[0]))
    ensures Run(word + rest) == |word| && (word + rest)[..|word|] == word && (word + rest)[|word|..] == rest
  {
    if word == "" {
      assert word + rest == rest;
    } else {
      assert (word + rest)[1..] == word[1..] + rest;
      RunOf(word[1..], rest);
    }
  }

  // ---------------------------------------------------------------- literals

  lemma {:induction false} JsonReads(name: string, rest: string)
    ensures ReadJson(Body(name) + ("\"" + rest)) == Some((name, rest))
  {
    var tail := "\"" + rest;
    if name == "" {
      assert Body(name) + tail == tail && tail[1..] == rest;
    } else {
      var more := Body(name[1..]) + tail;
      assert Body(name) == Escaped(name[0]) + Body(name[1..]);
      hide Escaped, Body, FirstDecoded, ReadJson;
      ConcatAssociative(Escaped(name[0]), Body(name[1..]), tail);
      JsonReads(name[1..], rest);
      CharReads(name[0], more, name[1..], rest);
      assert name == [name[0]] + name[1..];
    }
  }

  lemma CharReads(c: char, more: string, name: string, rest: string)
    requires ReadJson(more) == Some((name, rest))
    ensures ReadJson(Escaped(c) + more) == Some(([c] + name, rest))
  {
    EscapedIsNoQuote(c);
    hide Escaped, FirstDecoded;
    EscapedDecodes(c, more);
    assert (Escaped(c) + more)[0] == Escaped(c)[0];
  }

  lemma EscapedIsNoQuote(c: char)
    ensures Escaped(c) != "" && Escaped(c)[0] != '"'
  {}

  lemma {:induction false} SingleReads(s: string, rest: string)
    requires LiteralText(s)
    ensures ReadSingle(s + ("'" + rest)) == Some((s, rest))
  {
    if s == "" {
      assert s + ("'" + rest) == "'" + rest && ("'" + rest)[1..] == rest;
    } else {
      assert (s + ("'" + rest))[1..] == s[1..] + ("'" + rest);
      SingleReads(s[1..], rest);
      assert s == [s[0]] + s[1..];
    }
  }

  function StringText(s: string, named: bool): string { if named then Quoted(s) else "'" + s + "'" }

  lemma BehindQuote(quote: string, body: string, rest: string)
    requires |quote| == 1
    ensures var s := quote + body + quote + rest; s[0] == quote[0] && s[1..] == body + (quote + rest)
  {}

  lemma StringReads(s: string, named: bool, rest: string)
    requires named || LiteralText(s)
    ensures ReadString(StringText(s, named) + rest) == Some((s, rest))
  {
    hide ReadJson, ReadSingle, Body;
    if named {
      BehindQuote("\"", Body(s), rest);
      JsonReads(s, rest);
    } else {
      BehindQuote("'", s, rest);
      SingleReads(s, rest);
    }
  }

  // ---------------------------------------------------------------- texts piece by piece

  /** An operator between two texts. */
  function Between(a: string, op: string, b: string): string { a + (" " + (op + (" " + b))) }

  lemma InfixTokens(x: seq<Token>, op: string, y: seq<Token>)
    ensures x + Infix(op) + y == x + ([Gap] + ([Bare(op)] + ([Gap] + y)))
  {
    assert Infix(op) + y == [Gap] + ([Bare(op)] + ([Gap] + y));
    hide Infix;
    ConcatAssociative(x, Infix(op), y);
  }

  lemma InfixText(x: seq<Token>, op: string, y: seq<Token>)
    ensures Render(x + Infix(op) + y) == Between(Render(x), op, Render(y))
  {
    var tail := [Gap] + y;
    hide Render, Infix;
    InfixTokens(x, op, y);
    RenderAppend(x, [Gap] + ([Bare(op)] + tail));
    TokenThen(Gap, [Bare(op)] + tail);
    TokenThen(Bare(op), tail);
    TokenThen(Gap, y);
  }

  lemma BetweenThen(a: string, op: string, b: string, rest: string)
    ensures Between(a, op, b) + rest == a + (" " + (op + (" " + (b + rest))))
  {
    ConcatAssociative(" ", b, rest);
    ConcatAssociative(op, " " + b, rest);
    ConcatAssociative(" ", op + (" " + b), rest);
    ConcatAssociative(a, " " + (op + (" " + b)), rest);
  }

  function StringToken(s: string, named: bool): Token { if named then Json(s) else Single(s) }

  lemma StringTokenText(s: string, named: bool)
    ensures Render([StringToken(s, named)]) == StringText(s, named) != ""
    ensures StringText(s, named)[0] == if named then '"' else '\''
  {
    OneToken(StringToken(s, named));
  }

  // ---------------------------------------------------------------- lists

  predicate Strings(vs: seq<Value>, named: bool) {
    forall i :: 0 <= i < |vs| ==> vs[i].Str? && (named || LiteralText(vs[i].s))
  }

  lemma ItemsText(vs: seq<Value>, named: bool)
    requires vs != [] && Strings(vs, named)
    ensures Render(Items(vs, named)) ==
            if |vs| == 1 then StringText(vs[0].s, named)
            else StringText(vs[0].s, named) + ("," + (" " + Render(Items(vs[1..], named))))
  {
    var t := StringToken(vs[0].s, named);
    ItemsStep(vs, named);
    StringTokenText(vs[0].s, named);
    hide Items, Render, StringText;
    if |vs| > 1 {
      var more := Items(vs[1..], named);
      OneToken(t);
      TokenThen(t, [Bare(",")] + ([Gap] + more));
      TokenThen(Bare(","), [Gap] + more);
      TokenThen(Gap, more);
    }
  }

  /** One item of a list: what stands behind it decides whether the list goes on. */
  lemma ItemReads(s: string, named: bool, rest: string)
    requires named || LiteralText(s)
    ensures var x := ReadString(Skip(StringText(s, named) + rest)); x == Some((s, rest))
  {
    var text := StringText(s, named) + rest;
    StringTokenText(s, named);
    assert text[0] == StringText(s, named)[0];
    hide StringText;
    SkipInk(text);
    StringReads(s, named, rest);
  }

  lemma LastItem(text: string, s: string, rest: string)
    requires ReadString(Skip(text)) == Some((s, "]" + rest))
    ensures ReadItems(text) == Some(([Str(s)], rest))
  {
    hide ReadString;
    var end := "]" + rest;
    SkipInk(end);
    hide Skip;
    assert end[0] == ']' && end[1..] == rest;
  }

  lemma NextItem(text: string, s: string, more: string, vs: seq<Value>, rest: string)
    requires ReadString(Skip(text)) == Some((s, "," + more)) && ReadItems(more) == Some((vs, rest))
    ensures ReadItems(text) == Some(([Str(s)] + vs, rest))
  {
    hide ReadString;
    var tail := "," + more;
    SkipInk(tail);
    hide Skip;
    assert tail[0] == ',' && tail[1..] == more;
  }

  lemma {:induction false} ItemsRead(vs: seq<Value>, named: bool, rest: string)
    requires vs != [] && Strings(vs, named)
    ensures ReadItems(Render(Items(vs, named)) + ("]" + rest)) == Some((vs, rest))
  {
    var s, end := vs[0].s, "]" + rest;
    hide Render, Items, StringText, ReadString, ReadItems, Skip;
    ItemsText(vs, named);
    if |vs| == 1 {
      ItemReads(s, named, end);
      LastItem(StringText(s, named) + end, s, rest);
      assert vs == [Str(s)];
    } else {
      var more := Render(Items(vs[1..], named));
      ConcatAssociative(" ", more, end);
      ConcatAssociative(",", " " + more, end);
      ConcatAssociative(StringText(s, named), "," + (" " + more), end);
      ItemReads(s, named, "," + (" " + (more + end)));
      ItemsRead(vs[1..], named, rest);
      BlankBeforeItems(more + end);
      NextItem(StringText(s, named) + ("," + (" " + (more + end))), s, " " + (more + end), vs[1..], rest);
      assert vs == [Str(s)] + vs[1..];
    }
  }

  lemma BlankBeforeItems(s: string)
    ensures ReadItems(" " + s) == ReadItems(s)
  {
    SkipBlank(s);
    hide Skip, ReadString;
  }

  // ---------------------------------------------------------------- operands

  lemma StopsMember(e: Expr, rest: string)
    requires Stop(rest)
    ensures MemberTail(e, rest) == Some((e, rest))
  {}

  /** A text that starts with ink and no `!` is read as a primary expression and what hangs on it. */
  lemma PrimaryFirst(text: string)
    requires text != "" && !CelWhite(text[0]) && text[0] != '!'
    ensures ReadUnary(text) ==
            var root := ReadPrimary(text); if root.None? then None else MemberTail(root.value.0, root.value.1)
  {
    SkipInk(text);
    hide ReadPrimary, MemberTail;
  }

  lemma StringOperand(s: string, named: bool, rest: string)
    requires (named || LiteralText(s)) && Stop(rest)
    ensures ReadUnary(StringText(s, named) + rest) == Some((Lit(Str(s)), rest))
  {
    var text := StringText(s, named) + rest;
    StringTokenText(s, named);
    assert text[0] == StringText(s, named)[0];
    hide StringText, ReadString;
    StringReads(s, named, rest);
    PrimaryFirst(text);
    assert ReadPrimary(text) == Some((Lit(Str(s)), rest));
    hide ReadPrimary;
    StopsMember(Lit(Str(s)), rest);
  }

  lemma ListText(vs: seq<Value>, named: bool)
    ensures Render(Literally(List(vs), named)) == "[" + (Render(Items(vs, named)) + "]")
  {
    var items := Items(vs, named);
    assert Literally(List(vs), named) == [Bare("[")] + (items + [Bare("]")]);
    hide Render, Items;
    TokenThen(Bare("["), items + [Bare("]")]);
    RenderAppend(items, [Bare("]")]);
    OneToken(Bare("]"));
  }

  lemma ListReads(vs: seq<Value>, named: bool, rest: string)
    requires Strings(vs, named)
    ensures ReadList(Render(Items(vs, named)) + ("]" + rest)) == Some((List(vs), rest))
  {
    var items, end := Render(Items(vs, named)), "]" + rest;
    assert end[1..] == rest;
    if vs == [] {
      assert items == "" && items + end == end;
      SkipInk(end);
    } else {
      ItemsText(vs, named);
      StringTokenText(vs[0].s, named);
      assert (items + end)[0] == StringText(vs[0].s, named)[0];
      SkipInk(items + end);
      ItemsRead(vs, named, rest);
      hide Items, Render, StringText, ReadItems;
    }
  }

  lemma ListOperand(vs: seq<Value>, named: bool, rest: string)
    requires Strings(vs, named) && Stop(rest)
    ensures ReadUnary(Render(Literally(List(vs), named)) + rest) == Some((Lit(List(vs)), rest))
  {
    ListText(vs, named);
    hide Render, Items, ReadList, Literally;
    var items := Render(Items(vs, named));
    var text := "[" + (items + ("]" + rest));
    ConcatAssociative(items, "]", rest);
    ConcatAssociative("[", items + "]", rest);
    assert text[1..] == items + ("]" + rest);
    ListReads(vs, named, rest);
    PrimaryFirst(text);
    assert ReadPrimary(text) == Some((Lit(List(vs)), rest));
    hide ReadPrimary;
    StopsMember(Lit(List(vs)), rest);
  }

  /** A word on its own. */
  lemma WordFirst(word: string, rest: string)
    requires Identifier(word) && (rest != "" ==> !Letter(rest[0]))
    ensures var text := word + rest;
            && text != "" && !CelWhite(text[0]) && text[0] != '!' && ReadPrimary(text) == ReadWord(text)
            && Run(text) == |word| && text[..|word|] == word && text[|word|..] == rest
  {
    var text := word + rest;
    RunOf(word, rest);
    assert text[0] == word[0] && Letter(word[0]);
    hide ReadWord, Run;
  }

  lemma Keywords()
    ensures Identifier("object") && Identifier("oldObject") && Identifier("null") && Identifier("request")
    ensures Identifier("has")
  {}

  lemma NullOperand(rest: string)
    requires Stop(rest)
    ensures ReadUnary("null" + rest) == Some((Lit(Null), rest))
  {
    Keywords();
    hide Identifier;
    WordFirst("null", rest);
    PrimaryFirst("null" + rest);
    assert |"null"| == 4 && |"object"| == 6 && |"oldObject"| == 9;
    assert ReadWord("null" + rest) == Some((Lit(Null), rest));
    hide ReadPrimary, ReadWord;
    StopsMember(Lit(Null), rest);
  }

  lemma SideReads(w: Expr, rest: string)
    requires (w.Object? || w.OldObject?) && (rest != "" ==> !Letter(rest[0]))
    ensures var word := if w.Object? then "object" else "oldObject"; ReadUnary(word + rest) == MemberTail(w, rest)
  {
    Keywords();
    hide Identifier;
    var word := if w.Object? then "object" else "oldObject";
    WordFirst(word, rest);
    PrimaryFirst(word + rest);
    assert |"object"| == 6 && |"oldObject"| == 9;
    assert ReadWord(word + rest) == Some((w, rest));
    hide ReadPrimary, ReadWord, MemberTail;
  }

  // ---- attributes

  lemma AttributesApart(a: Attribute)
    ensures AttributeAt(Attributed(a)) == Some(a)
  {}

  lemma AttributedIsPath(a: Attribute)
    ensures forall i :: 0 <= i < |Attributed(a)| ==> PathChar(Attributed(a)[i])
  {}

  lemma {:induction false} PathRunOf(path: string, rest: string)
    requires (forall i :: 0 <= i < |path| ==> PathChar(path[i])) && (rest != "" ==> !PathChar(rest[0]))
    ensures PathRun(path + rest) == |path| && (path + rest)[..|path|] == path && (path + rest)[|path|..] == rest
  {
    if path == "" {
      assert path + rest == rest;
    } else {
      assert (path + rest)[1..] == path[1..] + rest;
      PathRunOf(path[1..], rest);
    }
  }

  lemma PathReads(a: Attribute, rest: string)
    requires Stop(rest)
    ensures ReadPath(Attributed(a) + rest) == Some((Attr(a), rest))
  {
    StopsPath(rest);
    AttributedIsPath(a);
    AttributesApart(a);
    hide Attributed, AttributeAt, PathChar, PathRun, Stop;
    PathRunOf(Attributed(a), rest);
  }

  lemma RequestReads(t: string)
    ensures ReadWord("request" + ("." + t)) == ReadPath(t)
  {
    Keywords();
    hide ReadPath, Identifier;
    var tail := "." + t;
    assert tail[0] == '.' && tail[1..] == t;
    WordFirst("request", tail);
    assert |"request"| == 7 && |"null"| == 4 && |"object"| == 6 && |"oldObject"| == 9;
  }

  lemma AttributeOperand(a: Attribute, rest: string)
    requires Stop(rest)
    ensures ReadUnary(Path(a) + rest) == Some((Attr(a), rest))
  {
    var t := Attributed(a) + rest;
    var text := "request" + ("." + t);
    assert Path(a) + rest == text by {
      assert "request" + "." == "request.";
      hide Attributed;
      ConcatAssociative("request", ".", t);
      ConcatAssociative("request.", Attributed(a), rest);
    }
    hide Attributed, Path, ReadPath, Stop;
    PathReads(a, rest);
    RequestReads(t);
    assert text[0] == 'r';
    PrimaryFirst(text);
    assert ReadPrimary(text) == ReadWord(text);
    hide ReadPrimary, ReadWord, ReadUnary, MemberTail;
    StopsMember(Attr(a), rest);
  }

  lemma StopsPath(rest: string)
    requires Stop(rest)
    ensures rest != "" ==> !PathChar(rest[0])
  {}

  // ---------------------------------------------------------------- members and macros

  /** The rest may hang on a member, but does not make its last word longer or a call of it. */
  predicate Loose(rest: string) { rest == "" || (!Letter(rest[0]) && rest[0] != '(') }

  lemma SelectText(x: Expr, f: string)
    ensures SourceText(Select(x, f)) ==
            SourceText(x) + if Identifier(f) then "." + f else "[" + (StringText(f, false) + "]")
  {
    var ts := Tokens(x);
    if Identifier(f) {
      assert Tokens(Select(x, f)) == ts + [Bare("." + f)];
      hide Tokens, Identifier;
      RenderAppend(ts, [Bare("." + f)]);
      OneToken(Bare("." + f));
    } else {
      var index := [Bare("[")] + ([Single(f)] + [Bare("]")]);
      assert [Bare("["), Single(f), Bare("]")] == index;
      assert Tokens(Select(x, f)) == ts + index;
      hide Tokens, Identifier, Render;
      RenderAppend(ts, index);
      TokenThen(Bare("["), [Single(f)] + [Bare("]")]);
      TokenThen(Single(f), [Bare("]")]);
      OneToken(Bare("]"));
    }
  }

  lemma FieldTail(e: Expr, f: string, rest: string)
    requires Identifier(f) && Loose(rest)
    ensures MemberTail(e, "." + (f + rest)) == MemberTail(Select(e, f), rest)
  {
    RunOf(f, rest);
    var s := "." + (f + rest);
    assert s[1..] == f + rest;
    hide Run;
  }

  lemma IndexTail(e: Expr, f: string, rest: string)
    requires LiteralText(f)
    ensures MemberTail(e, "[" + (StringText(f, false) + ("]" + rest))) == MemberTail(Select(e, f), rest)
  {
    var end := "]" + rest;
    var s := "[" + (StringText(f, false) + end);
    assert s[1..] == StringText(f, false) + end && end[1..] == rest;
    StringReads(f, false, end);
    hide ReadString, StringText;
  }

  lemma {:induction false} RootedReads(x: Expr, names: set<string>, rest: string)
    requires Rooted(x) && Writes(x, names) && Loose(rest)
    ensures ReadUnary(SourceText(x) + rest) == MemberTail(x, rest)
  {
    if x.Select? {
      var f := x.field;
      SelectText(x.e, f);
      hide SourceText, StringText, MemberTail, ReadUnary, Identifier, LiteralText;
      if Identifier(f) {
        ConcatAssociative(".", f, rest);
        ConcatAssociative(SourceText(x.e), "." + f, rest);
        RootedReads(x.e, names, "." + (f + rest));
        FieldTail(x.e, f, rest);
      } else {
        var key := StringText(f, false);
        ConcatAssociative(key, "]", rest);
        ConcatAssociative("[", key + "]", rest);
        ConcatAssociative(SourceText(x.e), "[" + (key + "]"), rest);
        RootedReads(x.e, names, "[" + (key + ("]" + rest)));
        IndexTail(x.e, f, rest);
      }
    } else {
      SideText(x);
      hide MemberTail, ReadUnary, SourceText;
      SideReads(x, rest);
    }
  }

  lemma SideText(w: Expr)
    requires w.Object? || w.OldObject?
    ensures SourceText(w) == if w.Object? then "object" else "oldObject"
  {
    OneToken(Bare(if w.Object? then "object" else "oldObject"));
  }

  /** What a unary reading gives is what the whole grammar gives, when nothing goes on behind it. */
  lemma Lifted(text: string, e: Expr, rest: string)
    requires ReadUnary(text) == Some((e, rest)) && Ended(rest)
    ensures ReadExpr(text) == Some((e, rest))
  {
    hide ReadUnary, Skip;
    assert ReadRelation(text) == Some((e, rest));
    hide ReadRelation;
    assert AndTail(e, rest) == OrTail(e, rest) == Some((e, rest));
    assert ReadAnd(text) == Some((e, rest));
    hide ReadAnd, AndTail;
    assert ReadOr(text) == Some((e, rest));
    hide ReadOr, OrTail;
  }

  lemma CloseEnds(rest: string)
    ensures Ended(")" + rest) && Skip(")" + rest) == ")" + rest && (")" + rest)[1..] == rest
  {
    SkipInk(")" + rest);
  }

  lemma HasText(x: Expr, f: string)
    ensures SourceText(Has(x, f)) == "has(" + (SourceText(x) + ("." + f + ")"))
  {
    var ts, end := Tokens(x), [Bare("." + f + ")")];
    assert Tokens(Has(x, f)) == [Bare("has(")] + (ts + end);
    hide Tokens, Render;
    TokenThen(Bare("has("), ts + end);
    RenderAppend(ts, end);
    OneToken(Bare("." + f + ")"));
  }

  lemma HasOperand(x: Expr, f: string, names: set<string>, rest: string)
    requires Writes(Has(x, f), names) && Stop(rest)
    ensures ReadUnary(SourceText(Has(x, f)) + rest) == Some((Has(x, f), rest))
  {
    var field, end := Select(x, f), ")" + rest;
    HasText(x, f);
    SelectText(x, f);
    CloseEnds(rest);
    Keywords();
    hide SourceText, Identifier, MemberTail;
    RootedReads(field, names, end);
    StopsMember(field, end);
    var inner := SourceText(field) + end;
    Lifted(inner, field, end);
    var text := "has" + ("(" + inner);
    assert SourceText(Has(x, f)) + rest == text by { HasThen(SourceText(x), f, rest); }
    assert ("(" + inner)[1..] == inner;
    WordFirst("has", "(" + inner);
    PrimaryFirst(text);
    assert |"has"| == 3 && |"request"| == 7 && |"null"| == 4 && |"object"| == 6 && |"oldObject"| == 9;
    hide ReadExpr;
    assert ReadWord(text) == Some((Has(x, f), rest));
    hide ReadPrimary, ReadWord, ReadUnary;
    StopsMember(Has(x, f), rest);
  }

  lemma HasThen(x: string, f: string, rest: string)
    ensures "has(" + (x + ("." + f + ")")) + rest == "has" + ("(" + (x + ("." + f) + (")" + rest)))
  {}

  // ---- macros

  function KeyText(key: string, rest: string): string {
    " " + ("==" + (" " + (StringText(key, false) + (")" + rest))))
  }

  lemma KeyReads(key: string, rest: string)
    requires LiteralText(key)
    ensures ReadKey(KeyText(key, rest)) == Some((Str(key), rest))
  {
    var end := ")" + rest;
    var text := StringText(key, false) + end;
    var op := "==" + (" " + text);
    StringTokenText(key, false);
    assert text[0] == StringText(key, false)[0];
    hide StringText, ReadString;
    SkipBlank(op);
    SkipInk(op);
    assert op[2..] == " " + text;
    SkipBlank(text);
    SkipInk(text);
    StringReads(key, false, end);
    CloseEnds(rest);
    hide Skip;
  }

  lemma ElementFirst(v: string, rest: string)
    requires Identifier(v)
    ensures var s := v + ("," + (" " + (v + rest)));
            && Run(s) == |v| && s[..|v|] == v && At(s[|v|..], ',') && Skip(s[|v|..][1..]) == v + rest
  {
    var tail := "," + (" " + (v + rest));
    RunOf(v, tail);
    assert tail[1..] == " " + (v + rest);
    SkipBlank(v + rest);
    assert (v + rest)[0] == v[0] && Letter(v[0]);
    SkipInk(v + rest);
    hide Run, Skip;
  }

  lemma MacroReads(range: Expr, macro: string, v: string, test: string)
    requires Identifier(v) && (test != "" ==> !Letter(test[0]))
    ensures ReadMacro(range, macro, v + ("," + (" " + (v + test)))) == ReadTest(range, macro, test)
  {
    assert v != "" && forall i :: 0 <= i < |v| ==> Letter(v[i]);
    ElementFirst(v, test);
    RunOf(v, test);
    hide Identifier, ReadTest, Run, Skip;
  }

  lemma ExistsReads(range: Expr, key: string, rest: string)
    requires LiteralText(key)
    ensures ReadMacro(range, "exists", "f" + ("," + (" " + ("f" + KeyText(key, rest))))) ==
            Some((ExistsEq(range, Str(key)), rest))
  {
    assert Identifier("f") && KeyText(key, rest)[0] == ' ';
    KeyReads(key, rest);
    assert ReadTest(range, "exists", KeyText(key, rest)) == Some((ExistsEq(range, Str(key)), rest));
    hide Identifier, KeyText, ReadTest, ReadMacro;
    MacroReads(range, "exists", "f", KeyText(key, rest));
  }

  lemma FilterTest(range: Expr, f: string, test: string, key: Value, rest: string)
    requires Identifier(f) && At(test, ' ') && ReadKey(test) == Some((key, rest))
    ensures ReadTest(range, "filter", "." + (f + test)) == Some((FilterEq(range, f, key), rest))
  {
    var s := "." + (f + test);
    RunOf(f, test);
    assert s[1..] == f + test;
    assert "filter"[0] == 'f' && "exists"[0] == 'e';
    hide ReadKey, Run, Identifier;
  }

  lemma FilterReads(range: Expr, f: string, key: string, rest: string)
    requires LiteralText(key) && Identifier(f)
    ensures ReadMacro(range, "filter", "c" + ("," + (" " + ("c" + ("." + (f + KeyText(key, rest))))))) ==
            Some((FilterEq(range, f, Str(key)), rest))
  {
    assert Identifier("c") && KeyText(key, rest)[0] == ' ';
    KeyReads(key, rest);
    hide Identifier, KeyText, ReadTest, ReadMacro, ReadKey;
    FilterTest(range, f, KeyText(key, rest), Str(key), rest);
    MacroReads(range, "filter", "c", "." + (f + KeyText(key, rest)));
  }

  lemma ExistsText(range: Expr, key: string)
    ensures SourceText(ExistsEq(range, Str(key))) ==
            SourceText(range) + (".exists(f," + (" " + ("f" + (" " + ("==" + (" " + (StringText(key, false) + ")")))))))
  {
    var ts, head := Tokens(range), [Bare(".exists(f,")] + ([Gap] + [Bare("f")]);
    var end := [Single(key)] + [Bare(")")];
    assert [Bare(".exists(f,"), Gap, Bare("f")] == head;
    assert Tokens(ExistsEq(range, Str(key))) == ts + head + Infix("==") + [Single(key)] + [Bare(")")];
    hide Tokens, Render, Infix;
    ConcatRegrouped(ts, head, Infix("=="), [Single(key)], [Bare(")")]);
    RenderAppend(ts, head + Infix("==") + end);
    MacroText(".exists(f,", "f", key);
  }

  lemma MacroText(head: string, element: string, key: string)
    ensures Render([Bare(head)] + ([Gap] + [Bare(element)]) + Infix("==") + ([Single(key)] + [Bare(")")])) ==
            head + (" " + (element + (" " + ("==" + (" " + (StringText(key, false) + ")"))))))
  {
    hide Render, Infix;
    var start, end := [Bare(head)] + ([Gap] + [Bare(element)]), [Single(key)] + [Bare(")")];
    InfixText(start, "==", end);
    TokenThen(Bare(head), [Gap] + [Bare(element)]);
    TokenThen(Gap, [Bare(element)]);
    OneToken(Bare(element));
    TokenThen(Single(key), [Bare(")")]);
    OneToken(Bare(")"));
    var tail := " " + ("==" + (" " + Render(end)));
    ConcatAssociative(head, " " + element, tail);
    ConcatAssociative(" ", element, tail);
  }

  lemma MacroStep(range: Expr, s: string, t: string, n: nat, e: Expr, rest: string)
    requires s != "" && s[0] == '.' && s[1..] == t && Run(t) == n && 0 < n < |t| && t[n] == '('
    requires ReadMacro(range, t[..n], t[n + 1..]) == Some((e, rest)) && Stop(rest)
    ensures MemberTail(range, s) == Some((e, rest))
  {
    StopsMember(e, rest);
    hide Run, ReadMacro, Stop;
    assert t[n..][1..] == t[n + 1..];
  }

  lemma MacroTail(range: Expr, macro: string, inner: string, e: Expr, rest: string)
    requires Identifier(macro) && ReadMacro(range, macro, inner) == Some((e, rest)) && Stop(rest)
    ensures MemberTail(range, "." + (macro + ("(" + inner))) == Some((e, rest))
  {
    assert macro != "";
    hide Run, ReadMacro, Identifier, Stop, MemberTail;
    var call, n := "(" + inner, |macro|;
    assert call[0] == '(';
    RunOf(macro, call);
    var t := macro + call;
    assert t[..n] == macro && t[n] == call[0] && t[n + 1..] == inner;
    var s := "." + t;
    assert s[1..] == t;
    MacroStep(range, s, t, n, e, rest);
  }

  lemma MacroThen(range: string, macro: string, v: string, element: string, key: string, rest: string)
    ensures var head := "." + (macro + ("(" + (v + ",")));
            range + (head + (" " + (element + (" " + ("==" + (" " + (key + ")"))))))) + rest ==
            var tail := " " + ("==" + (" " + (key + (")" + rest))));
            range + ("." + (macro + ("(" + (v + ("," + (" " + (element + tail)))))))
  {
    var tail := " " + ("==" + (" " + (key + (")" + rest))));
    assert " " + ("==" + (" " + (key + ")"))) + rest == tail;
    assert " " + (element + (" " + ("==" + (" " + (key + ")"))))) + rest == " " + (element + tail);
    var body := " " + (element + tail);
    var head := "." + (macro + ("(" + (v + ",")));
    assert head + body == "." + (macro + ("(" + (v + ("," + body))));
  }

  lemma MacroWords()
    ensures Identifier("exists") && Identifier("filter") && Identifier("f") && Identifier("c")
    ensures ".exists(f," == "." + ("exists" + ("(" + ("f" + ",")))
    ensures ".filter(c," == "." + ("filter" + ("(" + ("c" + ",")))
  {}

  lemma ExistsOperand(range: Expr, key: string, names: set<string>, rest: string)
    requires Rooted(range) && Writes(range, names) && LiteralText(key) && Stop(rest)
    ensures ReadUnary(SourceText(ExistsEq(range, Str(key))) + rest) == Some((ExistsEq(range, Str(key)), rest))
  {
    ExistsText(range, key);
    MacroWords();
    hide SourceText, StringText, Identifier, ReadMacro, ReadUnary, MemberTail;
    MacroThen(SourceText(range), "exists", "f", "f", StringText(key, false), rest);
    var inner := "f" + ("," + (" " + ("f" + KeyText(key, rest))));
    ExistsReads(range, key, rest);
    MacroTail(range, "exists", inner, ExistsEq(range, Str(key)), rest);
    RootedReads(range, names, "." + ("exists" + ("(" + inner)));
  }

  lemma FilterText(range: Expr, f: string, key: string)
    ensures SourceText(FilterEq(range, f, Str(key))) ==
            SourceText(range)
            + (".filter(c," + (" " + ("c." + f + (" " + ("==" + (" " + (StringText(key, false) + ")")))))))
  {
    var ts, head := Tokens(range), [Bare(".filter(c,")] + ([Gap] + [Bare("c." + f)]);
    var end := [Single(key)] + [Bare(")")];
    assert [Bare(".filter(c,"), Gap, Bare("c." + f)] == head;
    assert Tokens(FilterEq(range, f, Str(key))) == ts + head + Infix("==") + [Single(key)] + [Bare(")")];
    hide Tokens, Render, Infix;
    ConcatRegrouped(ts, head, Infix("=="), [Single(key)], [Bare(")")]);
    RenderAppend(ts, head + Infix("==") + end);
    MacroText(".filter(c,", "c." + f, key);
  }

  lemma FilterOperand(range: Expr, f: string, key: string, names: set<string>, rest: string)
    requires Rooted(range) && Writes(range, names) && Identifier(f) && LiteralText(key) && Stop(rest)
    ensures ReadUnary(SourceText(FilterEq(range, f, Str(key))) + rest) == Some((FilterEq(range, f, Str(key)), rest))
  {
    FilterText(range, f, key);
    MacroWords();
    hide SourceText, StringText, Identifier, ReadMacro, ReadUnary, MemberTail;
    MacroThen(SourceText(range), "filter", "c", "c." + f, StringText(key, false), rest);
    var inner := "c" + ("," + (" " + ("c" + ("." + (f + KeyText(key, rest))))));
    assert "c." + f + KeyText(key, rest) == "c" + ("." + (f + KeyText(key, rest)));
    FilterReads(range, f, key, rest);
    MacroTail(range, "filter", inner, FilterEq(range, f, Str(key)), rest);
    RootedReads(range, names, "." + ("filter" + ("(" + inner)));
  }
}
