/**
 Revoking one verb on one resource from an RBAC rule list by splitting the rules that grant it.
 Meaning is the set of permissions a rule list grants, over all groups, resources, verbs and names.
 */
module Rbac {
  import opened Common

  datatype Rule = Rule(
    apiGroups: Option<seq<string>>, resources: Option<seq<string>>, verbs: Option<seq<string>>,
    resourceNames: Option<seq<string>>)

  datatype Target = Target(apiGroup: string, resource: string, verb: string)

  datatype Permission = Permission(apiGroup: string, resource: string, verb: string, name: string)

  function Listed(xs: Option<seq<string>>): seq<string> { if xs.Some? then xs.value else [] }

  // ---------------------------------------------------------------- what Kubernetes grants

  /** The part of a resource after its first slash; empty for a main resource. */
  function SubResource(resource: string): string {
    if resource == "" then "" else if resource[0] == '/' then resource[1..] else SubResource(resource[1..])
  }

  predicate Matches(xs: seq<string>, x: string) { x in xs || "*" in xs }

  /** Resource lists also know the pattern for one subresource of every resource. */
  predicate MatchesResource(xs: seq<string>, resource: string) {
    Matches(xs, resource) || (SubResource(resource) != "" && "*/" + SubResource(resource) in xs)
  }

  predicate Grants(r: Rule, p: Permission) {
    && Matches(Listed(r.apiGroups), p.apiGroup)
    && MatchesResource(Listed(r.resources), p.resource)
    && Matches(Listed(r.verbs), p.verb)
    && (Listed(r.resourceNames) == [] || p.name in Listed(r.resourceNames))
  }

  predicate Allowed(rules: seq<Rule>, p: Permission) { exists i :: 0 <= i < |rules| && Grants(rules[i], p) }

  predicate Hits(p: Permission, t: Target) {
    p.apiGroup == t.apiGroup && p.resource == t.resource && p.verb == t.verb
  }

  // ---------------------------------------------------------------- revokeVerb

  /** The rule grants the target as the revocation reads it: by name or by a plain wildcard. */
  predicate AppearsToGrant(r: Rule, t: Target) {
    Matches(Listed(r.apiGroups), t.apiGroup) && Matches(Listed(r.resources), t.resource)
        && Matches(Listed(r.verbs), t.verb)
  }

  predicate NamesTarget(r: Rule, t: Target) {
    t.apiGroup in Listed(r.apiGroups) && t.resource in Listed(r.resources) && t.verb in Listed(r.verbs)
  }

  function Without(xs: seq<string>, x: string): (r: seq<string>)
    ensures forall y :: y in r <==> y in xs && y != x
  {
    if xs == [] then [] else (if xs[0] == x then [] else [xs[0]]) + Without(xs[1..], x)
  }

  function Kept(r: Rule, list: seq<string>): seq<Rule> { if list == [] then [] else [r] }

  /** A rule that names the target, split so that its siblings keep everything they had. */
  function SplitRule(r: Rule, t: Target): seq<Rule> {
    var groups := Without(Listed(r.apiGroups), t.apiGroup);
    var resources := Without(Listed(r.resources), t.resource);
    var verbs := Without(Listed(r.verbs), t.verb);
    Kept(r.(apiGroups := Some(groups)), groups)
    + Kept(r.(apiGroups := Some([t.apiGroup]), resources := Some(resources)), resources)
    + Kept(r.(apiGroups := Some([t.apiGroup]), resources := Some([t.resource]), verbs := Some(verbs)), verbs)
  }

  function Narrowed(r: Rule, t: Target): seq<Rule> { if AppearsToGrant(r, t) then SplitRule(r, t) else [r] }

  function RevokedRules(rules: seq<Rule>, t: Target): seq<Rule> {
    if rules == [] then [] else RevokedRules(rules[..|rules| - 1], t) + Narrowed(rules[|rules| - 1], t)
  }

  function RevokedCount(rules: seq<Rule>, t: Target): nat {
    if rules == [] then 0
    else RevokedCount(rules[..|rules| - 1], t) + if AppearsToGrant(rules[|rules| - 1], t) then 1 else 0
  }

  /** The revocation refuses a rule that grants the target only through a wildcard. */
  predicate Refused(r: Rule, t: Target) { AppearsToGrant(r, t) && !NamesTarget(r, t) }

  predicate Accepted(rules: seq<Rule>, t: Target) { forall i :: 0 <= i < |rules| ==> !Refused(rules[i], t) }

  method RevokeVerb(rules: seq<Rule>, t: Target) returns (r: Result<(seq<Rule>, nat), Rule>)
    ensures r.Ok? <==> Accepted(rules, t)
    ensures r.Ok? ==> r.value == (RevokedRules(rules, t), RevokedCount(rules, t))
    ensures r.Err? ==> r.error in rules && Refused(r.error, t)
  {
    hide Without, AppearsToGrant, NamesTarget, Listed;
    var revoked: nat := 0;
    var next: seq<Rule> := [];
    for i := 0 to |rules|
      invariant Accepted(rules[..i], t)
      invariant next == RevokedRules(rules[..i], t) && revoked == RevokedCount(rules[..i], t)
    {
      var rule := rules[i];
      assert rules[..i + 1][..i] == rules[..i];
      if !AppearsToGrant(rule, t) {
        next := next + [rule];
      } else {
        if !NamesTarget(rule, t) { return Err(rule); }
        revoked := revoked + 1;
        var before := next;
        var groups := Without(Listed(rule.apiGroups), t.apiGroup);
        if |groups| > 0 { next := next + [rule.(apiGroups := Some(groups))]; }
        var resources := Without(Listed(rule.resources), t.resource);
        if |resources| > 0 {
          next := next + [rule.(apiGroups := Some([t.apiGroup]), resources := Some(resources))];
        }
        var verbs := Without(Listed(rule.verbs), t.verb);
        if |verbs| > 0 {
          next := next + [rule.(apiGroups := Some([t.apiGroup]), resources := Some([t.resource]),
              verbs := Some(verbs))];
        }
        assert next == before + SplitRule(rule, t);
      }
    }
    assert rules[..|rules|] == rules;
    r := Ok((next, revoked));
  }

  // ---------------------------------------------------------------- one revocation

  /** The pattern for one subresource of every resource. */
  predicate SubPattern(resource: string) { "*/" <= resource && |resource| > 2 }

  /** Some component of the target is itself a pattern. */
  predicate Pattern(t: Target) {
    t.apiGroup == "*" || t.verb == "*" || t.resource == "*" || SubPattern(t.resource)
  }

  /** A target that names one permission. */
  predicate Concrete(t: Target) { !Pattern(t) }

  predicate Touches(r: Rule, t: Target) {
    && Matches(Listed(r.apiGroups), t.apiGroup) && MatchesResource(Listed(r.resources), t.resource)
    && Matches(Listed(r.verbs), t.verb)
  }

  predicate NoPatterns(r: Rule, t: Target) {
    && "*" !in Listed(r.apiGroups) && "*" !in Listed(r.resources) && "*" !in Listed(r.verbs)
    && (SubResource(t.resource) != "" ==> "*/" + SubResource(t.resource) !in Listed(r.resources))
  }

  /** Whoever grants the target grants it by name alone. */
  predicate Clean(rules: seq<Rule>, t: Target) {
    forall i :: 0 <= i < |rules| && Touches(rules[i], t) ==> NoPatterns(rules[i], t)
  }

  lemma SplitInThree(r: Rule, t: Target, p: Permission)
    ensures Allowed(SplitRule(r, t), p) <==>
            var groups, resources, verbs :=
              Without(Listed(r.apiGroups), t.apiGroup), Without(Listed(r.resources), t.resource),
              Without(Listed(r.verbs), t.verb);
            || (groups != [] && Grants(r.(apiGroups := Some(groups)), p))
            || (resources != [] && Grants(r.(apiGroups := Some([t.apiGroup]), resources := Some(resources)), p))
            || (verbs != [] && Grants(r.(apiGroups := Some([t.apiGroup]), resources := Some([t.resource]),
                verbs := Some(verbs)), p))
  {
    hide Grants, Without;
    var groups, resources, verbs :=
      Without(Listed(r.apiGroups), t.apiGroup), Without(Listed(r.resources), t.resource),
          Without(Listed(r.verbs), t.verb);
    var a := Kept(r.(apiGroups := Some(groups)), groups);
    var b := Kept(r.(apiGroups := Some([t.apiGroup]), resources := Some(resources)), resources);
    var c := Kept(r.(apiGroups := Some([t.apiGroup]), resources := Some([t.resource]), verbs := Some(verbs)), verbs);
    AllowedAppend(a, b, p);
    AllowedAppend(a + b, c, p);
    AllowedKept(r.(apiGroups := Some(groups)), groups, p);
    AllowedKept(r.(apiGroups := Some([t.apiGroup]), resources := Some(resources)), resources, p);
    AllowedKept(r.(apiGroups := Some([t.apiGroup]), resources := Some([t.resource]), verbs := Some(verbs)), verbs, p);
  }

  lemma AllowedKept(r: Rule, list: seq<string>, p: Permission)
    ensures Allowed(Kept(r, list), p) <==> list != [] && Grants(r, p)
  {
    if list != [] { assert Kept(r, list)[0] == r; }
  }

  lemma AllowedAppend(a: seq<Rule>, b: seq<Rule>, p: Permission)
    ensures Allowed(a + b, p) <==> Allowed(a, p) || Allowed(b, p)
  {
    if Allowed(a, p) {
      var i :| 0 <= i < |a| && Grants(a[i], p);
      assert (a + b)[i] == a[i];
    }
    if Allowed(b, p) {
      var i :| 0 <= i < |b| && Grants(b[i], p);
      assert (a + b)[|a| + i] == b[i];
    }
  }

  lemma ConcreteSubPattern(t: Target, resource: string)
    requires Concrete(t) && SubResource(resource) != ""
    ensures t.resource != "*/" + SubResource(resource)
  {
    assert SubPattern("*/" + SubResource(resource));
  }

  /** The three pieces of a clean rule: other groups, other resources of the group, other verbs. */
  lemma OtherGroups(r: Rule, t: Target, p: Permission)
    requires NamesTarget(r, t) && NoPatterns(r, t)
    ensures var groups := Without(Listed(r.apiGroups), t.apiGroup);
            groups != [] && Grants(r.(apiGroups := Some(groups)), p) <==> Grants(r, p) && p.apiGroup != t.apiGroup
  {
    hide Without, MatchesResource;
  }

  lemma OtherResources(r: Rule, t: Target, p: Permission)
    requires Concrete(t) && NamesTarget(r, t) && NoPatterns(r, t)
    ensures var resources := Without(Listed(r.resources), t.resource);
            resources != [] && Grants(r.(apiGroups := Some([t.apiGroup]), resources := Some(resources)), p) <==>
            Grants(r, p) && p.apiGroup == t.apiGroup && p.resource != t.resource
  {
    hide Without, SubResource;
    if SubResource(p.resource) != "" { ConcreteSubPattern(t, p.resource); }
  }

  lemma OtherVerbs(r: Rule, t: Target, p: Permission)
    requires Concrete(t) && NamesTarget(r, t) && NoPatterns(r, t)
    ensures var verbs := Without(Listed(r.verbs), t.verb);
            verbs != [] && Grants(r.(apiGroups := Some([t.apiGroup]), resources := Some([t.resource]),
                verbs := Some(verbs)), p)
            <==> Grants(r, p) && p.apiGroup == t.apiGroup && p.resource == t.resource && p.verb != t.verb
  {
    hide Without, SubResource;
    if SubResource(p.resource) != "" { ConcreteSubPattern(t, p.resource); }
  }

  /** The split of a clean rule grants what the rule granted, minus the target. */
  lemma SplitExact(r: Rule, t: Target, p: Permission)
    requires Concrete(t) && NamesTarget(r, t) && NoPatterns(r, t)
    ensures Allowed(SplitRule(r, t), p) <==> Grants(r, p) && !Hits(p, t)
  {
    hide Grants, Without, Allowed, SplitRule;
    SplitInThree(r, t, p);
    OtherGroups(r, t, p);
    OtherResources(r, t, p);
    OtherVerbs(r, t, p);
  }

  /** A split rule that still holds a pattern still grants the target. */
  lemma PatternSurvivesSplit(r: Rule, t: Target, name: string)
    requires Concrete(t) && NamesTarget(r, t) && !NoPatterns(r, t)
    requires Listed(r.resourceNames) == [] || name in Listed(r.resourceNames)
    ensures Allowed(SplitRule(r, t), Permission(t.apiGroup, t.resource, t.verb, name))
  {
    hide Without, SubResource, Allowed, SplitRule;
    SplitInThree(r, t, Permission(t.apiGroup, t.resource, t.verb, name));
    if SubResource(t.resource) != "" { ConcreteSubPattern(t, t.resource); }
  }

  lemma {:induction false} AllowedAfter(rules: seq<Rule>, t: Target, p: Permission)
    ensures Allowed(RevokedRules(rules, t), p) <==> exists i :: 0 <= i < |rules| && Allowed(Narrowed(rules[i], t), p)
  {
    hide Narrowed, Grants;
    if rules != [] {
      var init, last := rules[..|rules| - 1], rules[|rules| - 1];
      AllowedAfter(init, t, p);
      AllowedAppend(RevokedRules(init, t), Narrowed(last, t), p);
      assert forall i :: 0 <= i < |init| ==> init[i] == rules[i];
    }
  }

  lemma NarrowedExact(r: Rule, t: Target, p: Permission)
    requires Concrete(t) && (Touches(r, t) ==> NoPatterns(r, t))
    ensures !Refused(r, t)
    ensures Allowed(Narrowed(r, t), p) <==> Grants(r, p) && !Hits(p, t)
  {
    if AppearsToGrant(r, t) {
      SplitExact(r, t, p);
    } else {
      assert [r][0] == r;
    }
  }

  /** The revocation removes exactly one permission, whatever names it spans. */
  lemma RevocationExact(rules: seq<Rule>, t: Target, p: Permission)
    requires Concrete(t) && Clean(rules, t)
    ensures Accepted(rules, t)
    ensures Allowed(RevokedRules(rules, t), p) <==> Allowed(rules, p) && !Hits(p, t)
  {
    hide Narrowed, Grants, Hits, Touches, NoPatterns, Refused;
    AllowedAfter(rules, t, p);
    forall i | 0 <= i < |rules|
      ensures !Refused(rules[i], t) && (Allowed(Narrowed(rules[i], t), p) <==> Grants(rules[i], p) && !Hits(p, t))
    {
      NarrowedExact(rules[i], t, p);
    }
  }

  ghost predicate RemovesExactly(rules: seq<Rule>, t: Target) {
    && Accepted(rules, t)
    && forall p :: Allowed(RevokedRules(rules, t), p) <==> Allowed(rules, p) && !Hits(p, t)
  }

  lemma UncleanRuleStillGrants(r: Rule, t: Target, name: string)
    requires Concrete(t) && Touches(r, t) && !NoPatterns(r, t) && !Refused(r, t)
    requires Listed(r.resourceNames) == [] || name in Listed(r.resourceNames)
    ensures Allowed(Narrowed(r, t), Permission(t.apiGroup, t.resource, t.verb, name))
  {
    if AppearsToGrant(r, t) {
      PatternSurvivesSplit(r, t, name);
    } else {
      assert Grants([r][0], Permission(t.apiGroup, t.resource, t.verb, name));
    }
  }

  /** A concrete target's revocation succeeds and means what it says exactly when no rule that grants
      the target holds a pattern that grants it too. */
  lemma ConcreteRemovesExactlyIff(rules: seq<Rule>, t: Target)
    requires Concrete(t)
    ensures RemovesExactly(rules, t) <==> Clean(rules, t)
  {
    hide Narrowed, Grants, Touches, NoPatterns, Refused, RevokedRules;
    if Clean(rules, t) {
      forall p ensures Allowed(RevokedRules(rules, t), p) <==> Allowed(rules, p) && !Hits(p, t) {
        RevocationExact(rules, t, p);
      }
      RevocationExact(rules, t, Permission("", "", "", ""));
    } else if Accepted(rules, t) {
      var i :| 0 <= i < |rules| && Touches(rules[i], t) && !NoPatterns(rules[i], t);
      var names := Listed(rules[i].resourceNames);
      var p := Permission(t.apiGroup, t.resource, t.verb, if names == [] then "" else names[0]);
      UncleanRuleStillGrants(rules[i], t, p.name);
      AllowedAfter(rules, t, p);
      assert Allowed(RevokedRules(rules, t), p) && Hits(p, t);
    }
  }

  /** The gap: a list with both the wildcard and the exact name is accepted, and grants on. */
  lemma WildcardBesideNameStillGrants()
    ensures var rules := [Rule(Some(["apps"]), Some(["deployments"]), Some(["get", "*"]), None)];
            var t := Target("apps", "deployments", "get");
            && Accepted(rules, t)
            && Allowed(RevokedRules(rules, t), Permission("apps", "deployments", "get", "any"))
  {
    hide Without, SubResource, Allowed, SplitRule;
    var r := Rule(Some(["apps"]), Some(["deployments"]), Some(["get", "*"]), None);
    var t := Target("apps", "deployments", "get");
    assert Listed(r.verbs)[1] == "*" && Listed(r.verbs)[0] == "get";
    assert t.apiGroup[0] == 'a' && t.resource[0] == 'd' && t.verb[0] == 'g' && "*"[0] == '*' && "*/"[0] == '*';
    assert [r][..0] == [];
    assert RevokedRules([r], t) == RevokedRules([], t) + Narrowed(r, t) == Narrowed(r, t);
    PatternSurvivesSplit(r, t, "any");
  }

  // ---------------------------------------------------------------- a list of revocations

  /** Rules after revoking every target in turn. */
  function RevokedAll(rules: seq<Rule>, ts: seq<Target>): seq<Rule> {
    if ts == [] then rules else RevokedRules(RevokedAll(rules, ts[..|ts| - 1]), ts[|ts| - 1])
  }

  /** The injection's loop: it stops at a wildcard grant, and at a target that is not granted. */
  method RevokeAll(rules: seq<Rule>, ts: seq<Target>) returns (r: Result<seq<Rule>, Target>)
    ensures r.Ok? <==> forall i :: 0 <= i < |ts| ==>
              Accepted(RevokedAll(rules, ts[..i]), ts[i]) && RevokedCount(RevokedAll(rules, ts[..i]), ts[i]) > 0
    ensures r.Ok? ==> r.value == RevokedAll(rules, ts)
  {
    hide RevokedRules, RevokedCount, Accepted;
    var current := rules;
    for i := 0 to |ts|
      invariant current == RevokedAll(rules, ts[..i])
      invariant forall k :: 0 <= k < i ==>
                  Accepted(RevokedAll(rules, ts[..k]), ts[k]) && RevokedCount(RevokedAll(rules, ts[..k]), ts[k]) > 0
    {
      var result := RevokeVerb(current, ts[i]);
      if result.Err? || result.value.1 == 0 { return Err(ts[i]); }
      assert ts[..i + 1][..i] == ts[..i];
      current := result.value.0;
    }
    assert ts[..|ts|] == ts;
    r := Ok(current);
  }

  predicate AllConcrete(ts: seq<Target>) { forall i :: 0 <= i < |ts| ==> Concrete(ts[i]) }
  predicate AllClean(rules: seq<Rule>, ts: seq<Target>) { forall i :: 0 <= i < |ts| ==> Clean(rules, ts[i]) }
  predicate HitsAny(p: Permission, ts: seq<Target>) { exists i :: 0 <= i < |ts| && Hits(p, ts[i]) }

  /** Every piece of a split holds only entries of the rule it came from. */
  predicate Within(piece: Rule, r: Rule) {
    && (forall x :: x in Listed(piece.apiGroups) ==> x in Listed(r.apiGroups))
    && (forall x :: x in Listed(piece.resources) ==> x in Listed(r.resources))
    && (forall x :: x in Listed(piece.verbs) ==> x in Listed(r.verbs))
  }

  lemma {:induction false} PiecesWithin(rules: seq<Rule>, t: Target, j: nat)
    requires Accepted(rules, t) && j < |RevokedRules(rules, t)|
    ensures exists i :: 0 <= i < |rules| && Within(RevokedRules(rules, t)[j], rules[i])
  {
    var init, last := rules[..|rules| - 1], rules[|rules| - 1];
    var done := RevokedRules(init, t);
    if j < |done| {
      PiecesWithin(init, t, j);
      var i :| 0 <= i < |init| && Within(done[j], init[i]);
      assert Within(RevokedRules(rules, t)[j], rules[i]);
    } else {
      assert RevokedRules(rules, t)[j] == Narrowed(last, t)[j - |done|];
      assert !Refused(last, t);
      NarrowedWithin(last, t, j - |done|);
    }
  }

  lemma NarrowedWithin(r: Rule, t: Target, j: nat)
    requires !Refused(r, t) && j < |Narrowed(r, t)|
    ensures Within(Narrowed(r, t)[j], r)
  {
    hide Without, Matches;
    if AppearsToGrant(r, t) {
      assert NamesTarget(r, t);
    }
  }

  lemma CleanPreserved(rules: seq<Rule>, t: Target, u: Target)
    requires Accepted(rules, t) && Clean(rules, u)
    ensures Clean(RevokedRules(rules, t), u)
  {
    var next := RevokedRules(rules, t);
    forall j | 0 <= j < |next| && Touches(next[j], u) ensures NoPatterns(next[j], u) {
      PiecesWithin(rules, t, j);
      var i :| 0 <= i < |rules| && Within(next[j], rules[i]);
      assert Touches(rules[i], u);
    }
  }

  lemma {:induction false} FoldKeepsClean(rules: seq<Rule>, ts: seq<Target>, u: Target)
    requires AllConcrete(ts) && AllClean(rules, ts) && Clean(rules, u)
    ensures Clean(RevokedAll(rules, ts), u)
  {
    if ts != [] {
      hide Clean, Concrete, RevokedRules, Accepted;
      var init, last := ts[..|ts| - 1], ts[|ts| - 1];
      FoldKeepsClean(rules, init, u);
      FoldKeepsClean(rules, init, last);
      RevocationExact(RevokedAll(rules, init), last, Permission("", "", "", ""));
      CleanPreserved(RevokedAll(rules, init), last, u);
    }
  }

  lemma HitsAnyPush(p: Permission, ts: seq<Target>)
    requires ts != []
    ensures HitsAny(p, ts) <==> HitsAny(p, ts[..|ts| - 1]) || Hits(p, ts[|ts| - 1])
  {
    hide Hits;
    assert forall i :: 0 <= i < |ts| - 1 ==> ts[..|ts| - 1][i] == ts[i];
  }

  /** Folding over targets removes exactly their permissions. */
  lemma {:induction false} FoldExact(rules: seq<Rule>, ts: seq<Target>, p: Permission)
    requires AllConcrete(ts) && AllClean(rules, ts)
    ensures Allowed(RevokedAll(rules, ts), p) <==> Allowed(rules, p) && !HitsAny(p, ts)
  {
    if ts != [] {
      hide Hits, HitsAny, Clean, Concrete, Allowed, RevokedRules, Accepted;
      var init, last := ts[..|ts| - 1], ts[|ts| - 1];
      FoldExact(rules, init, p);
      FoldKeepsClean(rules, init, last);
      RevocationExact(RevokedAll(rules, init), last, p);
      HitsAnyPush(p, ts);
    } else {
      assert !HitsAny(p, ts);
    }
  }

  lemma FoldIgnoresOrder(rules: seq<Rule>, ts: seq<Target>, us: seq<Target>, p: Permission)
    requires AllConcrete(ts) && AllClean(rules, ts) && multiset(ts) == multiset(us)
    ensures Allowed(RevokedAll(rules, ts), p) <==> Allowed(RevokedAll(rules, us), p)
  {
    hide Hits, Clean, Allowed, Concrete;
    assert forall t :: t in ts <==> t in multiset(ts);
    assert forall t :: t in us <==> t in multiset(us);
    assert HitsAny(p, ts) <==> exists t :: t in ts && Hits(p, t);
    assert HitsAny(p, us) <==> exists t :: t in us && Hits(p, t);
    assert forall i :: 0 <= i < |us| ==> us[i] in ts;
    FoldExact(rules, ts, p);
    FoldExact(rules, us, p);
  }

  predicate Granted(rules: seq<Rule>, t: Target) { exists i :: 0 <= i < |rules| && Touches(rules[i], t) }

  lemma {:induction false} CountMeaning(rules: seq<Rule>, t: Target)
    requires Clean(rules, t)
    ensures RevokedCount(rules, t) > 0 <==> Granted(rules, t)
  {
    if rules != [] {
      var init, last := rules[..|rules| - 1], rules[|rules| - 1];
      assert Clean(init, t);
      CountMeaning(init, t);
      assert Touches(last, t) <==> AppearsToGrant(last, t);
      assert Granted(rules, t) <==> Granted(init, t) || Touches(last, t) by {
        assert forall i :: 0 <= i < |init| ==> init[i] == rules[i];
        assert rules[|rules| - 1] == last;
      }
    }
  }

  lemma GrantedMeaning(rules: seq<Rule>, t: Target)
    ensures Granted(rules, t) <==> exists name :: Allowed(rules, Permission(t.apiGroup, t.resource, t.verb, name))
  {
    if Granted(rules, t) {
      var i :| 0 <= i < |rules| && Touches(rules[i], t);
      var names := Listed(rules[i].resourceNames);
      var name := if names == [] then "" else names[0];
      assert Grants(rules[i], Permission(t.apiGroup, t.resource, t.verb, name));
      assert Allowed(rules, Permission(t.apiGroup, t.resource, t.verb, name));
    }
    if name :| Allowed(rules, Permission(t.apiGroup, t.resource, t.verb, name)) {
      var i :| 0 <= i < |rules| && Grants(rules[i], Permission(t.apiGroup, t.resource, t.verb, name));
      assert Touches(rules[i], t);
    }
  }

  /** On clean rules the loop gets through exactly when every target is granted to begin with and no
      target is repeated. */
  lemma FoldSucceedsIff(rules: seq<Rule>, ts: seq<Target>)
    requires AllConcrete(ts) && AllClean(rules, ts)
    ensures (forall i :: 0 <= i < |ts| ==>
               Accepted(RevokedAll(rules, ts[..i]), ts[i]) && RevokedCount(RevokedAll(rules, ts[..i]), ts[i]) > 0) <==>
            && (forall i :: 0 <= i < |ts| ==> Granted(rules, ts[i]))
            && (forall i, j :: 0 <= i < j < |ts| ==> ts[i] != ts[j])
  {
    hide Clean, Concrete, Granted, RevokedAll, Accepted, RevokedCount;
    forall i | 0 <= i < |ts|
      ensures Accepted(RevokedAll(rules, ts[..i]), ts[i])
      ensures RevokedCount(RevokedAll(rules, ts[..i]), ts[i]) > 0 <==> Granted(rules, ts[i]) && ts[i] !in ts[..i]
    {
      FoldStep(rules, ts[..i], ts[i]);
    }
    assert forall i, j :: 0 <= i < j < |ts| ==> ts[..j][i] == ts[i];
  }

  lemma FoldStep(rules: seq<Rule>, ts: seq<Target>, t: Target)
    requires AllConcrete(ts) && AllClean(rules, ts) && Concrete(t) && Clean(rules, t)
    ensures Accepted(RevokedAll(rules, ts), t)
    ensures RevokedCount(RevokedAll(rules, ts), t) > 0 <==> Granted(rules, t) && t !in ts
  {
    hide Clean, Concrete, Granted, RevokedAll, Accepted, RevokedCount, Allowed;
    var now := RevokedAll(rules, ts);
    FoldKeepsClean(rules, ts, t);
    RevocationExact(now, t, Permission("", "", "", ""));
    CountMeaning(now, t);
    GrantedMeaning(now, t);
    GrantedMeaning(rules, t);
    forall name ensures var p := Permission(t.apiGroup, t.resource, t.verb, name);
                        Allowed(now, p) <==> Allowed(rules, p) && t !in ts {
      var p := Permission(t.apiGroup, t.resource, t.verb, name);
      FoldExact(rules, ts, p);
      assert HitsAny(p, ts) <==> t in ts;
    }
  }

  // ---------------------------------------------------------------- targets that are patterns

  function Longest(xs: seq<string>): (n: nat)
    ensures forall x :: x in xs ==> |x| <= n
  {
    if xs == [] then 0
    else
      var n := Longest(xs[1..]);
      if |xs[0]| > n then |xs[0]| else n
  }

  predicate Shorter(r: Rule, n: nat) {
    && (forall x :: x in Listed(r.apiGroups) ==> |x| < n)
    && (forall x :: x in Listed(r.resources) ==> |x| < n)
    && (forall x :: x in Listed(r.verbs) ==> |x| < n)
  }

  lemma {:induction false} EntriesBounded(rules: seq<Rule>) returns (n: nat)
    ensures n > 1 && forall i :: 0 <= i < |rules| ==> Shorter(rules[i], n)
  {
    if rules == [] {
      n := 2;
    } else {
      var m := EntriesBounded(rules[1..]);
      var r := rules[0];
      n := m + Longest(Listed(r.apiGroups)) + Longest(Listed(r.resources)) + Longest(Listed(r.verbs)) + 1;
      forall i | 0 <= i < |rules| ensures Shorter(rules[i], n) {
        if i > 0 { assert rules[i] == rules[1..][i - 1]; }
      }
    }
  }

  function Fresh(n: nat): (s: string)
    ensures |s| == n && forall i :: 0 <= i < n ==> s[i] == 'x'
  {
    seq(n, _ => 'x')
  }

  /** A permission that a rule can grant only as it grants the target: through the same patterns. */
  function Stranger(t: Target, n: nat, name: string): Permission {
    Permission(if t.apiGroup == "*" then Fresh(n) else t.apiGroup,
               if t.resource == "*" then Fresh(n)
               else if SubPattern(t.resource) then Fresh(n) + t.resource[1..] else t.resource,
               if t.verb == "*" then Fresh(n) else t.verb, name)
  }

  function Itself(t: Target, name: string): Permission { Permission(t.apiGroup, t.resource, t.verb, name) }

  lemma {:induction false} SubResourceAfter(head: string, sub: string)
    requires forall i :: 0 <= i < |head| ==> head[i] != '/'
    ensures SubResource(head + ("/" + sub)) == sub && SubResource(head) == ""
  {
    if head == "" {
      assert head + ("/" + sub) == "/" + sub;
    } else {
      assert (head + ("/" + sub))[1..] == head[1..] + ("/" + sub);
      SubResourceAfter(head[1..], sub);
    }
  }

  lemma StrangerResource(xs: seq<string>, t: Target, n: nat)
    requires n > 1 && forall x :: x in xs ==> |x| < n
    ensures MatchesResource(xs, Stranger(t, n, "").resource) <==> MatchesResource(xs, t.resource)
  {
    var novel := Fresh(n);
    if t.resource == "*" {
      SubResourceAfter(novel, "");
      SubResourceAfter("*", "");
    } else if SubPattern(t.resource) {
      var sub := t.resource[2..];
      assert t.resource[1..] == "/" + sub && t.resource == "*" + ("/" + sub) == "*/" + sub;
      SubResourceAfter(novel, sub);
      SubResourceAfter("*", sub);
      assert novel + t.resource[1..] == novel + ("/" + sub);
      assert novel + ("/" + sub) !in xs;
    }
  }

  /** Rules with shorter entries cannot tell the stranger from the target. */
  lemma StrangerGrantedAlike(r: Rule, t: Target, n: nat, name: string)
    requires n > 1 && Shorter(r, n)
    ensures Grants(r, Stranger(t, n, name)) <==> Grants(r, Itself(t, name))
  {
    StrangerResource(Listed(r.resources), t, n);
    hide MatchesResource;
    assert Stranger(t, n, name).resource == Stranger(t, n, "").resource;
  }

  lemma StrangerAllowedAlike(rules: seq<Rule>, t: Target, n: nat, name: string)
    requires n > 1 && forall i :: 0 <= i < |rules| ==> Shorter(rules[i], n)
    ensures Allowed(rules, Stranger(t, n, name)) <==> Allowed(rules, Itself(t, name))
  {
    hide Grants, Shorter, Stranger, Itself;
    forall i | 0 <= i < |rules| ensures Grants(rules[i], Stranger(t, n, name)) <==> Grants(rules[i], Itself(t, name)) {
      StrangerGrantedAlike(rules[i], t, n, name);
    }
  }

  lemma StrangerIsMissed(t: Target, n: nat, name: string)
    requires Pattern(t) && n > 1
    ensures !Hits(Stranger(t, n, name), t) && Hits(Itself(t, name), t)
  {
    var novel := Fresh(n);
    assert novel[0] == 'x' && "*"[0] == '*';
    if SubPattern(t.resource) { assert (novel + t.resource[1..])[0] == 'x' && t.resource[0] == "*/"[0] == '*'; }
  }

  lemma RevokedStayShort(rules: seq<Rule>, t: Target, n: nat)
    requires Accepted(rules, t) && forall i :: 0 <= i < |rules| ==> Shorter(rules[i], n)
    ensures forall j :: 0 <= j < |RevokedRules(rules, t)| ==> Shorter(RevokedRules(rules, t)[j], n)
  {
    hide RevokedRules, Accepted;
    forall j | 0 <= j < |RevokedRules(rules, t)| ensures Shorter(RevokedRules(rules, t)[j], n) {
      PiecesWithin(rules, t, j);
    }
  }

  /** A pattern that is granted is never revoked exactly: a permission it covers but does not name goes
      with it, or it goes on being granted itself. */
  lemma GrantedPatternInexact(rules: seq<Rule>, t: Target)
    requires Pattern(t) && Granted(rules, t)
    ensures !RemovesExactly(rules, t)
  {
    hide Allowed, RevokedRules, Hits, Stranger, Pattern, Accepted, Granted, Shorter;
    if Accepted(rules, t) {
      GrantedMeaning(rules, t);
      var name :| Allowed(rules, Permission(t.apiGroup, t.resource, t.verb, name));
      var n := EntriesBounded(rules);
      StrangerAllowedAlike(rules, t, n, name);
      RevokedStayShort(rules, t, n);
      StrangerAllowedAlike(RevokedRules(rules, t), t, n, name);
      StrangerIsMissed(t, n, name);
      assert Allowed(rules, Stranger(t, n, name));
    }
  }

  /** A target that nothing grants is revoked exactly, by doing nothing. */
  lemma UngrantedExact(rules: seq<Rule>, t: Target)
    requires !Granted(rules, t)
    ensures RemovesExactly(rules, t)
  {
    forall i | 0 <= i < |rules| ensures !AppearsToGrant(rules[i], t) { assert !Touches(rules[i], t); }
    hide AppearsToGrant, Grants;
    forall p ensures Allowed(RevokedRules(rules, t), p) <==> Allowed(rules, p) && !Hits(p, t) {
      AllowedAfter(rules, t, p);
      forall i | 0 <= i < |rules| ensures Allowed(Narrowed(rules[i], t), p) <==> Grants(rules[i], p) {
        assert Narrowed(rules[i], t) == [rules[i]] && [rules[i]][0] == rules[i];
      }
      GrantedMeaning(rules, t);
      assert Hits(p, t) ==> p == Permission(t.apiGroup, t.resource, t.verb, p.name);
    }
  }

  /** Exactly when a revocation succeeds and means what it says, for every target: a concrete one when
      no rule that grants it holds a pattern that grants it too, a pattern when nothing grants it. */
  lemma RemovesExactlyIffClean(rules: seq<Rule>, t: Target)
    ensures RemovesExactly(rules, t) <==> if Pattern(t) then !Granted(rules, t) else Clean(rules, t)
  {
    hide RemovesExactly, Granted, Clean, Pattern;
    if !Pattern(t) {
      ConcreteRemovesExactlyIff(rules, t);
    } else if Granted(rules, t) {
      GrantedPatternInexact(rules, t);
    } else {
      UngrantedExact(rules, t);
    }
  }

  /** One such target: revoking every verb takes a named verb that the target does not name. */
  lemma WildcardTargetTakesMore()
    ensures var rules := [Rule(Some(["apps"]), Some(["deployments"]), Some(["*"]), None)];
            var t := Target("apps", "deployments", "*");
            var p := Permission("apps", "deployments", "get", "any");
            && Accepted(rules, t) && !Hits(p, t) && Allowed(rules, p) && !Allowed(RevokedRules(rules, t), p)
  {
    var r := Rule(Some(["apps"]), Some(["deployments"]), Some(["*"]), None);
    var t := Target("apps", "deployments", "*");
    var p := Permission("apps", "deployments", "get", "any");
    assert Grants([r][0], p);
    assert [r][..0] == [];
    assert Without(["apps"], "apps") == [] && Without(["deployments"], "deployments") == []
        && Without(["*"], "*") == [];
    assert Narrowed(r, t) == [];
    assert RevokedRules([r], t) == RevokedRules([], t) + Narrowed(r, t);
    assert "get"[0] == 'g';
  }
}
