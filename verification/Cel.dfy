/**
 The fragment of CEL that the teardown-authority policies are written in, with the error-aware
 evaluation rules the API server uses: `||` and `&&` absorb an error on either side when the other
 side already decides the outcome, every other operator propagates errors.
 */
module Cel {

  /** Kubernetes objects as the API server hands them to CEL. */
  datatype Value =
    | Null
    | Bool(b: bool)
    | Num(n: int)
    | Str(s: string)
    | List(items: seq<Value>)
    | Obj(fields: map<string, Value>)

  datatype Outcome = Val(v: Value) | Error

  const TRUE: Outcome := Val(Bool(true))
  const FALSE: Outcome := Val(Bool(false))

  /** The admission request attributes the policies read. */
  datatype Attribute = Group | Resource | SubResource | Operation | Namespace | Name | Username

  datatype Request = Request(
    user: string,
    group: string,
    version: string,
    resource: string,
    subResource: string,
    operation: string,
    namespace: string,
    name: string,
    oldObject: Value,
    newObject: Value)

  datatype Expr =
    | Lit(v: Value)
    | Attr(a: Attribute)
    | Object
    | OldObject
    | Select(e: Expr, field: string)
    | Has(e: Expr, field: string)
    | Not(e: Expr)
    | Or(left: Expr, right: Expr)
    | And(left: Expr, right: Expr)
    | Eq(left: Expr, right: Expr)
    | In(e: Expr, range: Expr)
    | Cond(test: Expr, yes: Expr, no: Expr)
      // range.exists(x, x == key)
    | ExistsEq(range: Expr, key: Value)
      // range.filter(x, x.field == key)
    | FilterEq(range: Expr, field: string, key: Value)

  function Ne(a: Expr, b: Expr): Expr { Not(Eq(a, b)) }

  function OrElse(x: Outcome, y: Outcome): Outcome {
    if x == TRUE || y == TRUE then TRUE else if x == FALSE && y == FALSE then FALSE else Error
  }

  function AndAlso(x: Outcome, y: Outcome): Outcome {
    if x == FALSE || y == FALSE then FALSE else if x == TRUE && y == TRUE then TRUE else Error
  }

  function Negate(x: Outcome): Outcome {
    if x == TRUE then FALSE else if x == FALSE then TRUE else Error
  }

  /** Optional attributes are omitted from the review when empty, so reading one is an error. */
  function Optional(s: string): Outcome { if s == "" then Error else Val(Str(s)) }

  function ReadAttribute(r: Request, a: Attribute): Outcome {
    match a
    case Group => Val(Str(r.group))
    case Resource => Val(Str(r.resource))
    case Operation => Val(Str(r.operation))
    case Username => Val(Str(r.user))
    case SubResource => Optional(r.subResource)
    case Namespace => Optional(r.namespace)
    case Name => Optional(r.name)
  }

  function Field(x: Outcome, f: string): Outcome {
    if x.Val? && x.v.Obj? && f in x.v.fields then Val(x.v.fields[f]) else Error
  }

  function HasField(x: Outcome, f: string): Outcome {
    if x.Val? && x.v.Obj? then Val(Bool(f in x.v.fields)) else Error
  }

  function Contains(x: Outcome, range: Outcome): Outcome {
    if !x.Val? || !range.Val? then Error
    else if range.v.List? then Val(Bool(x.v in range.v.items))
    else if range.v.Obj? && x.v.Str? then Val(Bool(x.v.s in range.v.fields))
    else Error
  }

  predicate Keyed(items: seq<Value>, f: string) {
    forall i :: 0 <= i < |items| ==> items[i].Obj? && f in items[i].fields
  }

  function KeepEq(items: seq<Value>, f: string, key: Value): seq<Value>
    requires Keyed(items, f)
  {
    if items == [] then []
    else (if items[0].fields[f] == key then [items[0]] else []) + KeepEq(items[1..], f, key)
  }

  function Eval(e: Expr, r: Request): Outcome {
    match e
    case Lit(v) => Val(v)
    case Attr(a) => ReadAttribute(r, a)
    case Object => Val(r.newObject)
    case OldObject => Val(r.oldObject)
    case Select(x, f) => Field(Eval(x, r), f)
    case Has(x, f) => HasField(Eval(x, r), f)
    case Not(x) => Negate(Eval(x, r))
    case Or(a, b) => OrElse(Eval(a, r), Eval(b, r))
    case And(a, b) => AndAlso(Eval(a, r), Eval(b, r))
    case Eq(a, b) =>
      var x, y := Eval(a, r), Eval(b, r);
      if x.Val? && y.Val? then Val(Bool(x.v == y.v)) else Error
    case In(x, range) => Contains(Eval(x, r), Eval(range, r))
    case Cond(t, a, b) =>
      var x := Eval(t, r);
      if x == TRUE then Eval(a, r) else if x == FALSE then Eval(b, r) else Error
    case ExistsEq(range, key) =>
      var x := Eval(range, r);
      if x.Val? && x.v.List? then Val(Bool(key in x.v.items)) else Error
    case FilterEq(range, f, key) =>
      var x := Eval(range, r);
      if x.Val? && x.v.List? && Keyed(x.v.items, f) then Val(List(KeepEq(x.v.items, f, key))) else Error
  }

  /** A validation lets a request through only when it evaluates to true. */
  predicate Holds(e: Expr, r: Request) { Eval(e, r) == TRUE }
}
