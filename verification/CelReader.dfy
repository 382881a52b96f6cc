/**
 A reader of CEL, for the part of it the policies are written in: precedence and grouping as in CEL's
 grammar, the macros `has`, `exists` and `filter`, and string literals in either kind of quotes.
 */
module CelReader {
  import opened Common
  import opened Cel
  import opened ExpressionText
  import opened ExpressionSource

  // ---------------------------------------------------------------- words and literals

  function Skip(s: string): (r: string)
    ensures |r| <= |s| && (r != "" ==> !CelWhite(r[0]))
  {
    if s != "" && CelWhite(s[0]) then Skip(s[1..]) else s
  }

  /** The length of the word the text starts with. */
  function Run(s: string): (n: nat)
    ensures n <= |s| && (forall i :: 0 <= i < n ==> Letter(s[i])) && (n < |s| ==> !Letter(s[n]))
  {
    if s == "" || !Letter(s[0]) then 0 else 1 + Run(s[1..])
  }

  predicate At(s: string, c: char) { s != "" && s[0] == c }

  predicate AtPair(s: string, c: char, d: char) { |s| >= 2 && s[0] == c && s[1] == d }

  /** The content of a JSON string and what follows it, read from behind the opening quote. */
  function ReadJson(s: string): (r: Option<(string, string)>)
    ensures r.Some? ==> |r.value.1| < |s|
    decreases |s|
  {
    if s == "" then None
    else if s[0] == '"' then Some(("", s[1..]))
    else
      var first := FirstDecoded(s);
      if first.None? then None
      else
        var rest := ReadJson(first.value.1);
        if rest.None? then None else Some(([first.value.0] + rest.value.0, rest.value.1))
  }

  /** The same for a literal in single quotes; escapes are not part of the fragment there. */
  function ReadSingle(s: string): (r: Option<(string, string)>)
    ensures r.Some? ==> |r.value.1| < |s|
  {
    if s == "" || s[0] == '\\' then None
    else if s[0] == '\'' then Some(("", s[1..]))
    else
      var rest := ReadSingle(s[1..]);
      if rest.None? then None else Some(([s[0]] + rest.value.0, rest.value.1))
  }

  function ReadString(s: string): (r: Option<(string, string)>)
    ensures r.Some? ==> |r.value.1| < |s|
  {
    if At(s, '"') then ReadJson(s[1..]) else if At(s, '\'') then ReadSingle(s[1..]) else None
  }

  /** The strings of a list and what follows it, read from behind the opening bracket or a comma. */
  function ReadItems(s: string): (r: Option<(seq<Value>, string)>)
    ensures r.Some? ==> |r.value.1| < |s|
    decreases |s|
  {
    var x := ReadString(Skip(s));
    if x.None? then None
    else
      var rest := Skip(x.value.1);
      if At(rest, ']') then Some(([Str(x.value.0)], rest[1..]))
      else if At(rest, ',') then
        var more := ReadItems(rest[1..]);
        if more.None? then None else Some(([Str(x.value.0)] + more.value.0, more.value.1))
      else None
  }

  function ReadList(s: string): (r: Option<(Value, string)>)
    ensures r.Some? ==> |r.value.1| < |s|
  {
    if At(Skip(s), ']') then Some((List([]), Skip(s)[1..]))
    else
      var items := ReadItems(s);
      if items.None? then None else Some((List(items.value.0), items.value.1))
  }

  // ---------------------------------------------------------------- attributes and macros

  predicate PathChar(c: char) { Letter(c) || c == '.' }

  function PathRun(s: string): (n: nat)
    ensures n <= |s|
  {
    if s == "" || !PathChar(s[0]) then 0 else 1 + PathRun(s[1..])
  }

  /** The attributes of an admission request, by path. */
  function AttributeAt(path: string): Option<Attribute> {
    match path
    case "resource.group" => Some(Group)
    case "resource.resource" => Some(Resource)
    case "subResource" => Some(SubResource)
    case "operation" => Some(Operation)
    case "namespace" => Some(Namespace)
    case "name" => Some(Name)
    case "userInfo.username" => Some(Username)
    case _ => None
  }

  type Reading = Option<(Expr, string)>

  function ReadPath(s: string): (r: Reading)
    ensures r.Some? ==> |r.value.1| <= |s|
  {
    var n := PathRun(s);
    var a := AttributeAt(s[..n]);
    if a.None? then None else Some((Attr(a.value), s[n..]))
  }

  /** `== 'key')` behind the element of a macro. */
  function ReadKey(s: string): (r: Option<(Value, string)>)
    ensures r.Some? ==> |r.value.1| < |s|
  {
    var t := Skip(s);
    if !AtPair(t, '=', '=') then None
    else
      var key := ReadString(Skip(t[2..]));
      if key.None? || !At(Skip(key.value.1), ')') then None else Some((Str(key.value.0), Skip(key.value.1)[1..]))
  }

  /** ` == 'key')` of `exists`, or `.field == 'key')` of `filter`, behind the element. */
  function ReadTest(range: Expr, macro: string, s: string): (r: Reading)
    ensures r.Some? ==> |r.value.1| < |s|
  {
    if macro == "exists" then
      var key := ReadKey(s);
      if key.None? then None else Some((ExistsEq(range, key.value.0), key.value.1))
    else if macro == "filter" && At(s, '.') then
      var n := Run(s[1..]);
      var key := ReadKey(s[1..][n..]);
      if key.None? then None else Some((FilterEq(range, s[1..][..n], key.value.0), key.value.1))
    else None
  }

  /** A macro's element, a comma, the element again and the test, behind the parenthesis. */
  function ReadMacro(range: Expr, macro: string, s: string): (r: Reading)
    ensures r.Some? ==> |r.value.1| < |s|
  {
    var n := Run(s);
    if n == 0 || !At(s[n..], ',') then None
    else
      var body := Skip(s[n..][1..]);
      var m := Run(body);
      if body[..m] != s[..n] then None else ReadTest(range, macro, body[m..])
  }

  // ---------------------------------------------------------------- the grammar

  function ReadExpr(s: string): (r: Reading)
    ensures r.Some? ==> |r.value.1| < |s|
    decreases |s|, 7
  {
    var test := ReadOr(s);
    if test.None? || !At(Skip(test.value.1), '?') then test
    else
      var yes := ReadOr(Skip(test.value.1)[1..]);
      if yes.None? || !At(Skip(yes.value.1), ':') then None
      else
        var no := ReadExpr(Skip(yes.value.1)[1..]);
        if no.None? then None else Some((Cond(test.value.0, yes.value.0, no.value.0), no.value.1))
  }

  function ReadOr(s: string): (r: Reading)
    ensures r.Some? ==> |r.value.1| < |s|
    decreases |s|, 6
  {
    var first := ReadAnd(s);
    if first.None? then None else OrTail(first.value.0, first.value.1)
  }

  function OrTail(e: Expr, s: string): (r: Reading)
    ensures r.Some? ==> |r.value.1| <= |s|
    decreases |s|, 6
  {
    var t := Skip(s);
    if !AtPair(t, '|', '|') then Some((e, s))
    else
      var next := ReadAnd(t[2..]);
      if next.None? then None else OrTail(Or(e, next.value.0), next.value.1)
  }

  function ReadAnd(s: string): (r: Reading)
    ensures r.Some? ==> |r.value.1| < |s|
    decreases |s|, 5
  {
    var first := ReadRelation(s);
    if first.None? then None else AndTail(first.value.0, first.value.1)
  }

  function AndTail(e: Expr, s: string): (r: Reading)
    ensures r.Some? ==> |r.value.1| <= |s|
    decreases |s|, 5
  {
    var t := Skip(s);
    if !AtPair(t, '&', '&') then Some((e, s))
    else
      var next := ReadRelation(t[2..]);
      if next.None? then None else AndTail(And(e, next.value.0), next.value.1)
  }

  predicate AtIn(s: string) { AtPair(s, 'i', 'n') && (|s| == 2 || !Letter(s[2])) }

  function ReadRelation(s: string): (r: Reading)
    ensures r.Some? ==> |r.value.1| < |s|
    decreases |s|, 4
  {
    var left := ReadUnary(s);
    if left.None? then None
    else
      var t := Skip(left.value.1);
      if !AtPair(t, '=', '=') && !AtPair(t, '!', '=') && !AtIn(t) then left
      else
        var right := ReadUnary(t[2..]);
        if right.None? then None
        else
          var e := if AtIn(t) then In(left.value.0, right.value.0) else Eq(left.value.0, right.value.0);
          Some((if t[0] == '!' then Not(e) else e, right.value.1))
  }

  function ReadUnary(s: string): (r: Reading)
    ensures r.Some? ==> |r.value.1| < |s|
    decreases |s|, 3
  {
    var t := Skip(s);
    if At(t, '!') then
      var x := ReadUnary(t[1..]);
      if x.None? then None else Some((Not(x.value.0), x.value.1))
    else
      var root := ReadPrimary(t);
      if root.None? then None else MemberTail(root.value.0, root.value.1)
  }

  function MemberTail(e: Expr, s: string): (r: Reading)
    ensures r.Some? ==> |r.value.1| <= |s|
    decreases |s|
  {
    if At(s, '.') then
      var n := Run(s[1..]);
      var rest := s[1..][n..];
      if n == 0 then None
      else if At(rest, '(') then
        var macro := ReadMacro(e, s[1..][..n], rest[1..]);
        if macro.None? then None else MemberTail(macro.value.0, macro.value.1)
      else MemberTail(Select(e, s[1..][..n]), rest)
    else if At(s, '[') then
      var key := ReadString(s[1..]);
      if key.None? || !At(key.value.1, ']') then None else MemberTail(Select(e, key.value.0), key.value.1[1..])
    else Some((e, s))
  }

  function ReadPrimary(s: string): (r: Reading)
    ensures r.Some? ==> |r.value.1| < |s|
    decreases |s|, 2
  {
    if At(s, '(') then
      var inner := ReadExpr(s[1..]);
      if inner.None? || !At(Skip(inner.value.1), ')') then None
      else Some((inner.value.0, Skip(inner.value.1)[1..]))
    else if At(s, '[') then
      var list := ReadList(s[1..]);
      if list.None? then None else Some((Lit(list.value.0), list.value.1))
    else if At(s, '"') || At(s, '\'') then
      var text := ReadString(s);
      if text.None? then None else Some((Lit(Str(text.value.0)), text.value.1))
    else ReadWord(s)
  }

  function ReadWord(s: string): (r: Reading)
    ensures r.Some? ==> |r.value.1| < |s|
    decreases |s|, 1
  {
    var n := Run(s);
    var word, rest := s[..n], s[n..];
    if n == 0 then None
    else if word == "object" then Some((Object, rest))
    else if word == "oldObject" then Some((OldObject, rest))
    else if word == "null" then Some((Lit(Null), rest))
    else if word == "request" && At(rest, '.') then ReadPath(rest[1..])
    else if word == "has" && At(rest, '(') then
      var field := ReadExpr(rest[1..]);
      if field.None? || !field.value.0.Select? || !At(Skip(field.value.1), ')') then None
      else Some((Has(field.value.0.e, field.value.0.field), Skip(field.value.1)[1..]))
    else None
  }

  /** A whole text. */
  function Reader(text: string): Option<Expr> {
    var r := ReadExpr(text);
    if r.None? || Skip(r.value.1) != "" then None else Some(r.value.0)
  }
}
