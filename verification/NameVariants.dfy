/**
 Texts that startup cannot tell from one ending in a configured name. When the name holds raw white
 space the comparison lets the white space of its literal vary, and nothing else: every accepted text
 is the same code followed by one string literal.
 */
module NameVariants {
  import opened Common
  import opened Text
  import opened Cel
  import opened ExpressionText
  import opened ExpressionSource

  // ---------------------------------------------------------------- texts that read alike

  /** Texts with one normal form end in one mode, and both stay inside a literal or neither does. */
  lemma SameNormalFormSameModes(s: string, t: string, m: Mode, last: char, started: bool)
    requires Steady(s, m) && Reachable(m) && !m.Escape? && !FinalMode(s, m).Escape? && (!started ==> last == ' ')
    requires Collapsed(t, started, false) == Collapsed(s, started, false)
    ensures FinalMode(t, m) == FinalMode(s, m) && (Contained(t, m) <==> Contained(s, m))
    ensures Plain(t, m, last) <==> Plain(s, m, last)
  {
    NormalFormKeepsSteady(s, m, last, started, false);
    SteadyNormalFormMeansSteadyText(t, m, started, false);
    NormalFormKeepsSteady(t, m, last, started, false);
  }

  lemma {:induction false} SteadyAppend(a: string, b: string, m: Mode)
    ensures Steady(a + b, m) <==> Steady(a, m) && Steady(b, FinalMode(a, m))
    decreases |a|
  {
    if a == "" {
      assert a + b == b;
    } else {
      assert (a + b)[1..] == a[1..] + b;
      SteadyAppend(a[1..], b, Advance(m, a[0]));
    }
  }

  lemma {:induction false} ContainedAppend(a: string, b: string, m: Mode)
    ensures Contained(a + b, m) <==> Contained(a, m) && Contained(b, FinalMode(a, m))
    decreases |a|
  {
    if a == "" {
      assert a + b == b;
    } else {
      assert (a + b)[1..] == a[1..] + b;
      ContainedAppend(a[1..], b, Advance(m, a[0]));
    }
  }

  // ---------------------------------------------------------------- a JSON name is one steady literal

  lemma {:induction false} TameIsSteady(s: string)
    requires forall i :: 0 <= i < |s| ==> Tame(s[i])
    ensures Steady(s, Inside('"')) && Contained(s, Inside('"'))
  {
    if s != "" { TameIsSteady(s[1..]); }
  }

  lemma EscapedIsSteady(c: char)
    ensures Steady(Escaped(c), Inside('"')) && Contained(Escaped(c), Inside('"'))
  {
    var e := Escaped(c);
    if |e| > 1 {
      assert !IsWhite(e[1]);
      forall i | 0 <= i < |e[2..]| ensures Tame(e[2..][i]) {}
      TameIsSteady(e[2..]);
      assert e[1..][1..] == e[2..];
    }
  }

  lemma {:induction false} BodyIsSteady(name: string)
    ensures Steady(Body(name), Inside('"')) && Contained(Body(name), Inside('"'))
  {
    if name != "" {
      hide Escaped;
      EscapedIsSteady(name[0]);
      EscapeStaysInside(name[0], '"');
      BodyIsSteady(name[1..]);
      SteadyAppend(Escaped(name[0]), Body(name[1..]), Inside('"'));
      ContainedAppend(Escaped(name[0]), Body(name[1..]), Inside('"'));
    }
  }

  // ---------------------------------------------------------------- taking normal forms apart

  lemma {:induction false} CollapsedEndsInInk(s: string, started: bool, gap: bool)
    ensures var out := Collapsed(s, started, gap); out != "" ==> !IsWhite(out[|out| - 1])
    decreases |s|
  {
    if s != "" {
      if IsWhite(s[0]) { CollapsedEndsInInk(s[1..], started, true); } else { CollapsedEndsInInk(s[1..], true, false); }
    }
  }

  /** What stands before the next character: a blank when white space was skipped since the last one. */
  function Separator(s: string, started: bool, gap: bool): string {
    if s == "" then (if started && gap then " " else "")
    else if IsWhite(s[0]) then Separator(s[1..], started, true)
    else Separator(s[1..], true, false)
  }

  /** What a text shows before its next character. */
  function Shown(s: string, started: bool, gap: bool): string {
    Collapsed(s, started, gap) + Separator(s, started, gap)
  }

  function Lead(c: char, started: bool, gap: bool): string { if started && gap then [' ', c] else [c] }

  lemma ShownStep(s: string, started: bool, gap: bool)
    requires s != ""
    ensures Shown(s, started, gap) ==
            if IsWhite(s[0]) then Shown(s[1..], started, true)
            else Lead(s[0], started, gap) + Shown(s[1..], true, false)
  {
    if !IsWhite(s[0]) {
      assert Collapsed(s, started, gap) == Lead(s[0], started, gap) + Collapsed(s[1..], true, false);
      ConcatAssociative(Lead(s[0], started, gap), Collapsed(s[1..], true, false), Separator(s[1..], true, false));
    }
  }

  lemma CollapsedLead(s: string, started: bool, gap: bool)
    requires s != ""
    ensures Collapsed(s, started, gap) ==
            if IsWhite(s[0]) then Collapsed(s[1..], started, true)
            else Lead(s[0], started, gap) + Collapsed(s[1..], true, false)
  {}

  lemma ScannedLead(s: string, m: Mode, started: bool, gap: bool)
    requires s != ""
    ensures Scanned(s, m, started, gap) ==
            if IsWhite(s[0]) && m == Code then Scanned(s[1..], m, started, true)
            else Lead(s[0], started, gap) + Scanned(s[1..], Advance(m, s[0]), true, false)
  {}

  lemma ShownNothing(c: char, started: bool, gap: bool)
    ensures Shown("", started, gap) + [c] == Lead(c, started, gap)
  {}

  lemma {:induction false} CollapsedThen(s: string, c: char, rest: string, started: bool, gap: bool)
    requires !IsWhite(c)
    ensures Collapsed(s + ([c] + rest), started, gap) ==
            Shown(s, started, gap) + [c] + Collapsed(rest, true, false)
    decreases |s|
  {
    var whole := s + ([c] + rest);
    CollapsedLead(whole, started, gap);
    hide Collapsed, Shown, Lead;
    if s == "" {
      assert whole[0] == c && whole[1..] == rest;
      ShownNothing(c, started, gap);
    } else {
      assert whole[0] == s[0] && whole[1..] == s[1..] + ([c] + rest);
      ShownStep(s, started, gap);
      if IsWhite(s[0]) {
        CollapsedThen(s[1..], c, rest, started, true);
      } else {
        CollapsedThen(s[1..], c, rest, true, false);
        Regroup(Lead(s[0], started, gap), Shown(s[1..], true, false), [c], Collapsed(rest, true, false));
      }
    }
  }

  lemma Regroup(a: string, b: string, c: string, d: string)
    ensures a + (b + c + d) == a + b + c + d
  {}

  lemma NothingBefore(started: bool, gap: bool)
    ensures Collapsed("", started, gap) == "" && Separator("", started, gap) == if started && gap then " " else ""
  {}

  /** Every character of a normal form comes from one place in the text. */
  lemma {:induction false} SplitAtInk(t: string, n: nat, started: bool, gap: bool) returns (k: nat)
    requires n < |Collapsed(t, started, gap)| && !IsWhite(Collapsed(t, started, gap)[n])
    ensures k < |t| && !IsWhite(t[k]) && |Shown(t[..k], started, gap)| == n
    decreases |t|
  {
    assert t != "";
    CollapsedLead(t, started, gap);
    hide Collapsed, Shown;
    var next, head := t[1..], Lead(t[0], started, gap);
    if IsWhite(t[0]) {
      var i := SplitAtInk(next, n, started, true);
      k := i + 1;
      ShownBehind(t, i, started, gap);
    } else if n < |head| {
      k := 0;
      ShownNothing(t[0], started, gap);
      assert t[..0] == "" && n == |head| - 1;
    } else {
      var i := SplitAtInk(next, n - |head|, true, false);
      k := i + 1;
      ShownBehind(t, i, started, gap);
    }
  }

  lemma ShownBehind(t: string, i: nat, started: bool, gap: bool)
    requires i < |t|
    ensures |Shown(t[..i + 1], started, gap)| ==
            if IsWhite(t[0]) then |Shown(t[1..][..i], started, true)|
            else |Lead(t[0], started, gap)| + |Shown(t[1..][..i], true, false)|
  {
    hide Shown, Lead;
    ShownStep(t[..i + 1], started, gap);
    assert t[..i + 1][1..] == t[1..][..i];
  }

  lemma PartsOfEqualLength(a: string, c: char, b: string, x: string, d: char, y: string)
    requires a + [c] + b == x + [d] + y && |a| == |x|
    ensures a == x && c == d && b == y
  {
    assert a == (a + [c] + b)[..|a|] && x == (x + [d] + y)[..|x|];
    assert c == (a + [c] + b)[|a|] && d == (x + [d] + y)[|x|];
    assert b == (a + [c] + b)[|a| + 1..] && y == (x + [d] + y)[|x| + 1..];
  }

  lemma SeparatorIsBlank(s: string, started: bool, gap: bool)
    ensures Separator(s, started, gap) in {"", " "}
  {
    if s != "" {
      if IsWhite(s[0]) { SeparatorIsBlank(s[1..], started, true); } else { SeparatorIsBlank(s[1..], true, false); }
    }
  }

  lemma InkThenBlank(a: string, x: string, b: string, y: string)
    requires a + x == b + y && x in {"", " "} && y in {"", " "}
    requires (a != "" ==> !IsWhite(a[|a| - 1])) && (b != "" ==> !IsWhite(b[|b| - 1]))
    ensures a == b && x == y
  {
    assert a + x != "" ==> (a + x)[|a + x| - 1] == (b + y)[|b + y| - 1];
    assert a == (a + x)[..|a|] && b == (b + y)[..|b|];
  }

  /** Two texts that continue alike in their normal forms agree on what stands before. */
  lemma SamePartsBefore(s: string, t: string, started: bool, gap: bool)
    requires Shown(s, started, gap) == Shown(t, started, gap)
    ensures Collapsed(s, started, gap) == Collapsed(t, started, gap)
    ensures Separator(s, started, gap) == Separator(t, started, gap)
  {
    hide Collapsed, Separator;
    CollapsedEndsInInk(s, started, gap);
    CollapsedEndsInInk(t, started, gap);
    SeparatorIsBlank(s, started, gap);
    SeparatorIsBlank(t, started, gap);
    InkThenBlank(Collapsed(s, started, gap), Separator(s, started, gap),
                 Collapsed(t, started, gap), Separator(t, started, gap));
  }

  /** A text whose normal form is `pre`, `c`, `post` falls into parts with those normal forms. */
  lemma SplitAlike(t: string, pre: string, c: char, post: string, started: bool) returns (k: nat)
    requires !IsWhite(c) && Collapsed(t, started, false) == Collapsed(pre + ([c] + post), started, false)
    ensures k < |t| && t[k] == c
    ensures Collapsed(t[..k], started, false) == Collapsed(pre, started, false)
    ensures Separator(t[..k], started, false) == Separator(pre, started, false)
    ensures Collapsed(t[k + 1..], true, false) == Collapsed(post, true, false)
  {
    CollapsedThen(pre, c, post, started, false);
    hide Collapsed, Separator, Shown;
    var head, tail := Shown(pre, started, false), Collapsed(post, true, false);
    assert Collapsed(t, started, false)[|head|] == c;
    k := SplitAtInk(t, |head|, started, false);
    assert t == t[..k] + ([t[k]] + t[k + 1..]);
    CollapsedThen(t[..k], t[k], t[k + 1..], started, false);
    PartsOfEqualLength(Shown(t[..k], started, false), t[k], Collapsed(t[k + 1..], true, false), head, c, tail);
    SamePartsBefore(t[..k], pre, started, false);
  }

  // ---------------------------------------------------------------- programs that end in a literal

  lemma {:induction false} ScannedThenLiteral(s: string, q: char, rest: string, m: Mode, started: bool, gap: bool)
    requires Clean(s, m) && FinalMode(s, m) == Code && Quote(q)
    ensures Scanned(s + ([q] + rest), m, started, gap) ==
            Shown(s, started, gap) + [q] + Scanned(rest, Inside(q), true, false)
    decreases |s|
  {
    var whole := s + ([q] + rest);
    ScannedLead(whole, m, started, gap);
    hide Scanned, Shown, Lead;
    if s == "" {
      assert whole[0] == q && whole[1..] == rest;
      ShownNothing(q, started, gap);
    } else {
      assert whole[0] == s[0] && whole[1..] == s[1..] + ([q] + rest);
      ShownStep(s, started, gap);
      if IsWhite(s[0]) {
        ScannedThenLiteral(s[1..], q, rest, m, started, true);
      } else {
        ScannedThenLiteral(s[1..], q, rest, Advance(m, s[0]), true, false);
        Regroup(Lead(s[0], started, gap), Shown(s[1..], true, false), [q], Scanned(rest, Inside(q), true, false));
      }
    }
  }

  lemma {:induction false} ScannedBlank(w: string, started: bool, gap: bool)
    requires Blank(w)
    ensures Scanned(w, Code, started, gap) == ""
  {
    if w != "" { ScannedBlank(w[1..], started, true); }
  }

  lemma {:induction false} ScannedLiteral(body: string, q: char, w: string, m: Mode)
    requires Contained(body, m) && FinalMode(body, m) == Inside(q) && Quote(q) && Blank(w)
    ensures Scanned(body + ([q] + w), m, true, false) == body + [q]
  {
    if body == "" {
      assert body + ([q] + w) == [q] + w && ([q] + w)[1..] == w;
      ScannedBlank(w, true, false);
    } else {
      assert (body + ([q] + w))[1..] == body[1..] + ([q] + w);
      ScannedLiteral(body[1..], q, w, Advance(m, body[0]));
    }
  }

  lemma {:induction false} EmptyNormalFormIsBlank(w: string, started: bool, gap: bool)
    requires Collapsed(w, started, gap) == ""
    ensures Blank(w)
  {
    if w != "" {
      EmptyNormalFormIsBlank(w[1..], started, true);
      assert forall i :: 1 <= i < |w| ==> w[i] == w[1..][i - 1];
    }
  }

  /** What may stand between the quotes of one literal. */
  predicate Closable(body: string) { Contained(body, Inside('"')) && FinalMode(body, Inside('"')) == Inside('"') }

  function Enclosed(body: string): string { "\"" + (body + "\"") }

  lemma EndingProgram(pre: string, body: string, w: string)
    requires Clean(pre, Code) && Terminated(pre) && Closable(body) && Blank(w)
    ensures Program(pre + ("\"" + (body + ("\"" + w)))) ==
            Shown(pre, false, false) + ("\"" + (body + "\""))
  {
    ScannedThenLiteral(pre, '"', body + ("\"" + w), Code, false, false);
    ScannedLiteral(body, '"', w, Inside('"'));
    assert ['"'] == "\"";
    hide Scanned, Shown;
    ConcatAssociative(Shown(pre, false, false), "\"", body + "\"");
  }

  /** A text the comparison takes for `pre` with a quoted name is `pre`'s code and one literal. */
  lemma VariantParts(pre: string, name: string, t: string) returns (a: string, body: string, w: string)
    requires Normalize(t) == Normalize(pre + Quoted(name))
    ensures t == a + ("\"" + (body + ("\"" + w))) && Blank(w) && Closable(body)
    ensures Collapsed(a, false, false) == Collapsed(pre, false, false)
    ensures Separator(a, false, false) == Separator(pre, false, false)
  {
    var inner := Body(name) + "\"";
    NormalizeIsCollapsed(t);
    NormalizeIsCollapsed(pre + Quoted(name));
    assert Quoted(name) == ['"'] + inner && inner == Body(name) + (['"'] + "");
    hide Collapsed, Separator, Normalize, Body, Blank;
    var k := SplitAlike(t, pre, '"', inner, false);
    var b := t[k + 1..];
    var j := SplitAlike(b, Body(name), '"', "", true);
    a, body, w := t[..k], b[..j], b[j + 1..];
    JoinAround(t, k);
    JoinAround(b, j);
    NothingBefore(true, false);
    EmptyNormalFormIsBlank(w, true, false);
    VariantBodyCloses(name, body);
  }

  lemma JoinAround(t: string, k: nat)
    requires k < |t|
    ensures t == t[..k] + ([t[k]] + t[k + 1..])
  {}

  lemma VariantBodyCloses(name: string, body: string)
    requires Collapsed(body, true, false) == Collapsed(Body(name), true, false)
    ensures Closable(body)
  {
    BodyIsSteady(name);
    BodyStaysInside(name, '"');
    hide Collapsed, Body;
    SameNormalFormSameModes(Body(name), body, Inside('"'), '"', true);
  }

  lemma QuotedIsSteady(name: string)
    ensures Steady(Quoted(name), Code)
  {
    BodyIsSteady(name);
    BodyStaysInside(name, '"');
    SteadyAppend(Body(name), "\"", Inside('"'));
    assert Quoted(name)[1..] == Body(name) + "\"";
  }

  /** Such a text is plain, and its program is that of `pre` with the literal. */
  lemma VariantProgram(pre: string, name: string, t: string) returns (body: string)
    requires Clean(pre, Code) && Terminated(pre) && PlainText(pre + Quoted(name))
    requires Normalize(t) == Normalize(pre + Quoted(name))
    ensures PlainText(t) && Closable(body) && Program(t) == Program(pre + Enclosed(body))
  {
    var a, w;
    a, body, w := VariantParts(pre, name, t);
    VariantIsPlain(pre, name, t);
    NormalFormStaysClean(pre, Code, false, false);
    CleanNormalFormMeansCleanText(a, Code, false, false);
    NormalFormStaysClean(a, Code, false, false);
    assert Blank("");
    EndingProgram(a, body, w);
    EndingProgram(pre, body, "");
    assert pre + Enclosed(body) == pre + ("\"" + (body + ("\"" + "")));
    hide Collapsed, Separator, Program, Normalize, Clean, Enclosed;
  }

  lemma VariantIsPlain(pre: string, name: string, t: string)
    requires Clean(pre, Code) && Terminated(pre) && PlainText(pre + Quoted(name))
    requires Normalize(t) == Normalize(pre + Quoted(name))
    ensures PlainText(t)
  {
    NormalizeIsCollapsed(t);
    NormalizeIsCollapsed(pre + Quoted(name));
    CleanIsSteady(pre, Code);
    QuotedIsSteady(name);
    QuotedIsOneLiteral(name, ' ');
    SteadyAppend(pre, Quoted(name), Code);
    ScanAppend(pre, Quoted(name), Code, ' ');
    hide Collapsed, Normalize, Quoted;
    SameNormalFormSameModes(pre + Quoted(name), t, Code, ' ', false);
  }

  lemma LiteralScans(body: string, last: char)
    requires Closable(body)
    ensures Skippable(Enclosed(body), Code)
    ensures Plain(Enclosed(body), Code, last) <==> !Exotic(last, '"')
  {
    InsideScans(body, '"', Inside('"'));
    ScanAppend(body, "\"", Inside('"'), '"');
    assert Enclosed(body)[1..] == body + "\"";
  }

  lemma {:induction false} InsideScans(s: string, last: char, m: Mode)
    requires Contained(s, m)
    ensures Skippable(s, m) && Plain(s, m, last)
  {
    if s != "" { InsideScans(s[1..], Seen(s[0]), Advance(m, s[0])); }
  }

  /** Accepted in place of such a text, for every compiler: the same code and some literal, or nothing. */
  lemma VariantCompilesAsLiteral(parse: string -> Option<Expr>, pre: string, name: string, t: string)
    returns (body: string)
    requires Clean(pre, Code) && Terminated(pre) && Skippable(pre, Code) && PlainText(pre + Quoted(name))
    requires Normalize(t) == Normalize(pre + Quoted(name))
    ensures Closable(body)
    ensures Compile(parse, t) == None || Compile(parse, t) == Compile(parse, pre + Enclosed(body))
  {
    body := VariantProgram(pre, name, t);
    QuotedIsOneLiteral(name, LastOf(pre, ' '));
    LiteralScans(body, LastOf(pre, ' '));
    ScanAppend(pre, Quoted(name), Code, ' ');
    ScanAppend(pre, Enclosed(body), Code, ' ');
    hide Quoted, Enclosed, Normalize, Program;
  }
}
