/** How a rule's API group patterns depend on the version, which a review may leave out. */
module GroupVersions {
  import opened ClusterRules
  import opened Paths
  import opened Patterns
  import opened Selectors
  import opened Text
  import opened Wrappers

  // ---------- Globs across the slash ----------

  /** What a glob asks for besides its stars is in every value it matches. */
  lemma {:induction false} GlobKeepsChar(pattern: string, value: string, c: char)
    requires Glob(pattern, value) && c in pattern && c != STAR
    ensures c in value
    decreases |pattern|
  {
    if pattern[0] == STAR {
      var i :| 0 <= i <= |value| && Glob(pattern[1..], value[i..]);
      GlobKeepsChar(pattern[1..], value[i..], c);
      assert c in value[i..];
    } else if pattern[0] != c {
      GlobKeepsChar(pattern[1..], value[1..], c);
      assert c in value[1..];
    }
  }

  /** A slash in the pattern meets the only slash of a group and version. */
  lemma {:induction false} GlobAcrossSlash(a: string, b: string, group: string, version: string)
    requires SLASH !in a && SLASH !in group && SLASH !in version
    ensures Glob(a + [SLASH] + b, group + [SLASH] + version) <==> Glob(a, group) && Glob(b, version)
    decreases |a|, 0
  {
    var pattern, value := a + [SLASH] + b, group + [SLASH] + version;
    if a == [] {
      assert pattern[0] == SLASH && pattern[1..] == b;
      if group == [] {
        assert value[1..] == version;
      } else {
        assert value[0] == group[0];
      }
    } else {
      var rest := a[1..] + [SLASH] + b;
      assert pattern[0] == a[0] && pattern[1..] == rest;
      if a[0] == STAR {
        StarAcrossSlash(a[1..], b, group, version);
      } else if group != [] {
        GlobAcrossSlash(a[1..], b, group[1..], version);
        assert value[0] == group[0] && value[1..] == group[1..] + [SLASH] + version;
      } else {
        assert value[0] == SLASH && a[0] in a;
      }
    }
  }

  lemma {:induction false} StarAcrossSlash(a: string, b: string, group: string, version: string)
    requires SLASH !in a && SLASH !in group && SLASH !in version
    ensures (exists i :: 0 <= i <= |group + [SLASH] + version| && Glob(a + [SLASH] + b, (group + [SLASH] + version)[i..]))
      <==> (exists i :: 0 <= i <= |group| && Glob(a, group[i..])) && Glob(b, version)
    decreases |a|, 1
  {
    var pattern, value := a + [SLASH] + b, group + [SLASH] + version;
    forall i | 0 <= i <= |value|
      ensures Glob(pattern, value[i..]) <==> i <= |group| && Glob(a, group[i..]) && Glob(b, version)
    {
      if i <= |group| {
        assert value[i..] == group[i..] + [SLASH] + version;
        GlobAcrossSlash(a, b, group[i..], version);
      } else {
        assert value[i..] == version[i - |group| - 1..];
        assert pattern[|a|] == SLASH;
        if Glob(pattern, value[i..]) { GlobKeepsChar(pattern, value[i..], SLASH); }
      }
    }
    if i :| 0 <= i <= |group| && Glob(a, group[i..]) && Glob(b, version) {
      assert Glob(pattern, value[i..]);
    }
  }

  predicate AllStars(pattern: string) { forall i :: 0 <= i < |pattern| ==> pattern[i] == STAR }

  lemma {:induction false} AllStarsGlob(pattern: string, value: string)
    requires AllStars(pattern) && pattern != []
    ensures Glob(pattern, value)
    decreases |pattern|
  {
    assert pattern[0] == STAR;
    assert value[|value|..] == [];
    if |pattern| == 1 {
      assert Glob(pattern[1..], value[|value|..]);
    } else {
      AllStarsGlob(pattern[1..], value[|value|..]);
    }
  }

  /** The pattern without its stars. */
  function Solid(pattern: string): (s: string)
    ensures forall c :: c in s <==> c in pattern && c != STAR
  {
    if pattern == [] then []
    else
      assert pattern == [pattern[0]] + pattern[1..];
      (if pattern[0] == STAR then [] else [pattern[0]]) + Solid(pattern[1..])
  }

  lemma {:induction false} SolidMatches(pattern: string)
    ensures Glob(pattern, Solid(pattern))
  {
    if pattern != [] {
      SolidMatches(pattern[1..]);
      if pattern[0] == STAR {
        assert Solid(pattern)[0..] == Solid(pattern[1..]);
      } else {
        assert Solid(pattern)[1..] == Solid(pattern[1..]);
      }
    }
  }

  // ---------- Which patterns ignore the version ----------

  /** The glob the matcher takes a pattern for. */
  function Read(pattern: string): string { if Simple(pattern) then pattern else [STAR] + (pattern + [STAR]) }

  lemma AcceptsRead(pattern: string, value: string)
    ensures Accepts(pattern, value) <==> Glob(Read(pattern), value)
  {
    if !Simple(pattern) { GeneralBranchIsWrapped(pattern, value); }
  }

  /** What the pattern asks of the version, when it has a slash. */
  function VersionPart(pattern: string): string { Cut(Read(pattern), SLASH).1 }

  /** The pattern has no slash, or asks the version for nothing, or has more slashes than any target. */
  predicate VersionBlind(pattern: string) {
    || SLASH !in pattern
    || SLASH in VersionPart(pattern)
    || (VersionPart(pattern) != [] && AllStars(VersionPart(pattern)))
  }

  /** A pattern with a slash asks the group and the version separately. */
  lemma SlashedMatch(pattern: string, group: string, version: string, resource: string)
    requires SLASH in pattern && SLASH !in group && SLASH !in version
    ensures GroupMatches(pattern, Gvk(group, version, resource)) <==>
      Glob(Cut(Read(pattern), SLASH).0, group) && Glob(VersionPart(pattern), version)
  {
    var p := Read(pattern);
    AcceptsRead(pattern, group + [SLASH] + version);
    assert SLASH in p;
    var (a, b, _) := Cut(p, SLASH);
    GlobAcrossSlash(a, b, group, version);
  }

  lemma BlindMatch(pattern: string, group: string, version: string, resource: string)
    requires VersionBlind(pattern) && SLASH !in group && SLASH !in version
    ensures GroupMatches(pattern, Gvk(group, "", resource)) <==> GroupMatches(pattern, Gvk(group, version, resource))
  {
    if SLASH in pattern {
      SlashedMatch(pattern, group, "", resource);
      SlashedMatch(pattern, group, version, resource);
      var tail := VersionPart(pattern);
      if SLASH in tail {
        if Glob(tail, "") { GlobKeepsChar(tail, "", SLASH); }
        if Glob(tail, version) { GlobKeepsChar(tail, version, SLASH); }
      } else {
        AllStarsGlob(tail, "");
        AllStarsGlob(tail, version);
      }
    }
  }

  /** A pattern that is not blind tells some version of some group from a missing one. */
  lemma SightedPattern(pattern: string, resource: string) returns (group: string, version: string)
    requires !VersionBlind(pattern)
    ensures SLASH !in group && Segment(version)
    ensures GroupMatches(pattern, Gvk(group, "", resource)) != GroupMatches(pattern, Gvk(group, version, resource))
  {
    var (head, tail, _) := Cut(Read(pattern), SLASH);
    group := Solid(head);
    SolidMatches(head);
    if tail == [] {
      version := "v";
    } else {
      version := Solid(tail);
      SolidMatches(tail);
      var k :| 0 <= k < |tail| && tail[k] != STAR;
      assert tail[k] in Solid(tail);
      if Glob(tail, "") {
        GlobKeepsChar(tail, "", tail[k]);
      }
    }
    SlashedMatch(pattern, group, "", resource);
    SlashedMatch(pattern, group, version, resource);
  }

  /** A pattern treats a missing version like every version exactly when it is blind. */
  lemma VersionBlindIff(pattern: string, resource: string)
    ensures (forall group, version :: SLASH !in group && Segment(version) ==>
        (GroupMatches(pattern, Gvk(group, "", resource)) <==> GroupMatches(pattern, Gvk(group, version, resource))))
      <==> VersionBlind(pattern)
  {
    if VersionBlind(pattern) {
      forall group, version | SLASH !in group && Segment(version)
        ensures GroupMatches(pattern, Gvk(group, "", resource)) <==> GroupMatches(pattern, Gvk(group, version, resource))
      {
        BlindMatch(pattern, group, version, resource);
      }
    } else {
      var _, _ := SightedPattern(pattern, resource);
    }
  }

  /** A pattern without a star matches just itself. */
  lemma LiteralGroup(pattern: string, gvk: Gvk)
    requires STAR !in pattern && pattern != "*"
    ensures GroupMatches(pattern, gvk) <==>
      pattern == if SLASH in pattern then gvk.group + [SLASH] + gvk.version else gvk.group
  {
    var target := if SLASH in pattern then gvk.group + [SLASH] + gvk.version else gvk.group;
    assert pattern + [] == pattern;
    GlobLiteral(pattern, [], target);
  }

  // ---------- Rules ----------

  predicate CoversResource(cr: ClusterResource, resource: string) { "*" in cr.resources || resource in cr.resources }

  predicate BlindRule(cr: ClusterResource) { forall i :: 0 <= i < |cr.apiGroups| ==> VersionBlind(cr.apiGroups[i]) }

  /** No rule that covers the resource asks for a version. */
  ghost predicate BlindRules(tenants: seq<ProxyTenant>, resource: string) {
    forall t, cr :: t in tenants && cr in t.clusterResources && CoversResource(cr, resource) ==> BlindRule(cr)
  }

  lemma BlindRuleMatches(cr: ClusterResource, group: string, version: string, resource: string)
    requires CoversResource(cr, resource) ==> BlindRule(cr)
    requires SLASH !in group && SLASH !in version
    ensures RuleMatches(Some(Gvk(group, "", resource)), cr) <==> RuleMatches(Some(Gvk(group, version, resource)), cr)
  {
    if CoversResource(cr, resource) {
      forall i | 0 <= i < |cr.apiGroups|
        ensures GroupMatches(cr.apiGroups[i], Gvk(group, "", resource)) <==>
          GroupMatches(cr.apiGroups[i], Gvk(group, version, resource))
      {
        BlindMatch(cr.apiGroups[i], group, version, resource);
      }
    }
  }

  lemma {:induction false} BlindRuleRequirements(rules: seq<ClusterResource>, operation: Operation,
                                                 group: string, version: string, resource: string)
    requires forall cr :: cr in rules && CoversResource(cr, resource) ==> BlindRule(cr)
    requires SLASH !in group && SLASH !in version
    ensures RuleRequirements(Some(Gvk(group, "", resource)), operation, rules) ==
      RuleRequirements(Some(Gvk(group, version, resource)), operation, rules)
  {
    if rules != [] {
      var front, last := rules[..|rules| - 1], rules[|rules| - 1];
      BlindRuleRequirements(front, operation, group, version, resource);
      assert last in rules;
      BlindRuleMatches(last, group, version, resource);
    }
  }

  /** Then a missing version gets the requirements of every version. */
  lemma {:induction false} BlindRequirements(tenants: seq<ProxyTenant>, operation: Operation,
                                             group: string, version: string, resource: string)
    requires BlindRules(tenants, resource) && SLASH !in group && SLASH !in version
    ensures Requirements(Some(Gvk(group, "", resource)), operation, tenants) ==
      Requirements(Some(Gvk(group, version, resource)), operation, tenants)
  {
    if tenants != [] {
      var front, last := tenants[..|tenants| - 1], tenants[|tenants| - 1];
      assert last in tenants;
      BlindRequirements(front, operation, group, version, resource);
      BlindRuleRequirements(last.clusterResources, operation, group, version, resource);
    }
  }

  /** One tenant with one rule for the given groups, on all resources and both operations. */
  function OneRule(apiGroup: string, r: Requirement): seq<ProxyTenant> {
    [ProxyTenant([ClusterResource([apiGroup], ["*"], [], Selects([r]))])]
  }

  lemma OneRuleRequirements(apiGroup: string, r: Requirement, gvk: Gvk, operation: Operation)
    requires operation == LIST || operation == GET
    ensures Requirements(Some(gvk), operation, OneRule(apiGroup, r)) != [] <==> GroupMatches(apiGroup, gvk)
  {
    var tenants := OneRule(apiGroup, r);
    var cr := ClusterResource([apiGroup], ["*"], [], Selects([r]));
    assert tenants[..0] == [] && tenants[0].clusterResources == [cr] && [cr][..0] == [];
    assert cr.resources[0] == "*" && cr.apiGroups[0] == apiGroup;
    assert RuleMatches(Some(gvk), cr) <==> GroupMatches(apiGroup, gvk);
    assert RuleRequirements(Some(gvk), operation, []) == [];
  }
}
