/** What LIST and GET make of the objects a rule's own selector selects. */
module RuleSelection {
  import opened ClusterRules
  import opened Paths
  import opened Selectors
  import opened Text
  import opened Wrappers

  // ---------- Requirements that mean the same ----------

  /** The two ask the same of the same key. */
  predicate Alike(r: Requirement, s: Requirement) {
    r.key == s.key && Normal(r.op) == Normal(s.op) && (InLike(r) || NotInLike(r) ==> r.values == s.values)
  }

  /** A requirement about values names some. */
  predicate Proper(r: Requirement) { InLike(r) || NotInLike(r) ==> r.values != {} }

  predicate HoldsAbsent(r: Requirement) { NotInLike(r) || r.op.DoesNotExist? }

  lemma AlikeMatch(r: Requirement, s: Requirement, labels: Labels)
    requires Alike(r, s)
    ensures Matches(r, labels) <==> Matches(s, labels)
  {
  }

  /** A value, or the lack of one, that meets the requirement or misses it as wanted. */
  ghost function Choice(r: Requirement, met: bool): Option<string>
    requires Proper(r)
    ensures var c := Choice(r, met);
      met == if c.None? then HoldsAbsent(r) else HoldsFor(r, c.value)
  {
    if HoldsAbsent(r) == met then None
    else if InLike(r) || NotInLike(r) then (var v :| v in r.values; Some(v))
    else Some("")
  }

  function With(labels: Labels, key: string, choice: Option<string>): Labels {
    if choice.Some? then labels[key := choice.value] else labels
  }

  /** Requirements on different keys are told apart. */
  lemma KeysTellApart(r: Requirement, s: Requirement) returns (labels: Labels)
    requires Proper(r) && Proper(s) && r.key != s.key
    ensures Matches(r, labels) && !Matches(s, labels)
  {
    labels := With(With(map[], r.key, Choice(r, true)), s.key, Choice(s, false));
  }

  /** So are different requirements on one key. */
  lemma ValuesTellApart(r: Requirement, s: Requirement) returns (labels: Labels)
    requires r.key == s.key && !Alike(r, s)
    ensures Matches(r, labels) != Matches(s, labels)
  {
    if HoldsAbsent(r) != HoldsAbsent(s) {
      labels := map[];
    } else if Normal(r.op) == Normal(s.op) {
      var v :| v in (r.values - s.values) + (s.values - r.values);
      labels := map[r.key := v];
    } else {
      var v := FreshValue(r.values + s.values);
      assert v !in r.values + s.values;
      labels := map[r.key := v];
    }
  }

  /** Requirements that are not alike are told apart by some labels. */
  lemma LabelsTellApart(r: Requirement, s: Requirement) returns (labels: Labels)
    requires Proper(r) && Proper(s) && !Alike(r, s)
    ensures Matches(r, labels) != Matches(s, labels)
  {
    if r.key != s.key {
      labels := KeysTellApart(r, s);
    } else {
      labels := ValuesTellApart(r, s);
    }
  }

  predicate AllAlike(rs: seq<Requirement>) { forall r, s | r in rs && s in rs :: Alike(r, s) }

  /** Any requirement of a selector admits as much as all of them exactly when there is some and they are all alike. */
  lemma AnyIsAllIff(rs: seq<Requirement>)
    requires AllValid(rs)
    ensures (forall labels: Labels :: SomeMatches(rs, labels) <==> SelectorMatches(rs, labels)) <==> rs != [] && AllAlike(rs)
  {
    if rs == [] {
      assert SelectorMatches(rs, map[]) && !SomeMatches(rs, map[]);
    } else if AllAlike(rs) {
      forall labels: Labels ensures SomeMatches(rs, labels) <==> SelectorMatches(rs, labels) {
        AlikeAnyIsAll(rs, labels);
      }
    } else {
      var r, s :| r in rs && s in rs && !Alike(r, s);
      var _ := DifferentAdmitMore(rs, r, s);
    }
  }

  lemma DifferentAdmitMore(rs: seq<Requirement>, r: Requirement, s: Requirement) returns (labels: Labels)
    requires AllValid(rs) && r in rs && s in rs && !Alike(r, s)
    ensures SomeMatches(rs, labels) && !SelectorMatches(rs, labels)
  {
    ValidIsProper(rs, r);
    ValidIsProper(rs, s);
    labels := LabelsTellApart(r, s);
    MemberDecides(rs, r, labels);
    MemberDecides(rs, s, labels);
  }

  lemma MemberDecides(rs: seq<Requirement>, r: Requirement, labels: Labels)
    requires r in rs
    ensures Matches(r, labels) ==> SomeMatches(rs, labels)
    ensures !Matches(r, labels) ==> !SelectorMatches(rs, labels)
  {
    var i :| 0 <= i < |rs| && rs[i] == r;
  }

  lemma AlikeAnyIsAll(rs: seq<Requirement>, labels: Labels)
    requires rs != [] && AllAlike(rs)
    ensures SomeMatches(rs, labels) <==> SelectorMatches(rs, labels)
  {
    forall i, j | 0 <= i < |rs| && 0 <= j < |rs| ensures Matches(rs[i], labels) ==> Matches(rs[j], labels) {
      assert Alike(rs[i], rs[j]);
      AlikeMatch(rs[i], rs[j], labels);
    }
    if SelectorMatches(rs, labels) {
      assert Matches(rs[0], labels);
    }
  }

  lemma ValidIsProper(rs: seq<Requirement>, r: Requirement)
    requires AllValid(rs) && r in rs
    ensures Proper(r)
  {
    var i :| 0 <= i < |rs| && rs[i] == r;
    ValidCount(r);
  }

  // ---------- The merged selector against its requirements ----------

  /** One requirement's share in the merged selector, as a requirement. */
  function Share(rs: seq<Requirement>, r: Requirement): Requirement {
    if InLike(r) then Requirement(r.key, In, Included(rs, r.key)) else r
  }

  lemma ShareIsMet(rs: seq<Requirement>, r: Requirement, labels: Labels)
    requires r in rs
    ensures Met(rs, r, labels) <==> Matches(Share(rs, r), labels)
  {
    if InLike(r) && r.key in labels {
      var v := labels[r.key];
      if v in Included(rs, r.key) {
        var s :| s in rs && s.key == r.key && InLike(s) && v in s.values;
        assert Matches(s, labels);
      }
    }
  }

  /** All requirements have one share: all In-like on one key, or all alike. */
  predicate OneShare(rs: seq<Requirement>) {
    forall r, s | r in rs && s in rs ::
      r.key == s.key && Normal(r.op) == Normal(s.op) && (NotInLike(r) ==> r.values == s.values)
  }

  lemma ShareIsProper(rs: seq<Requirement>, r: Requirement)
    requires AllValid(rs) && r in rs
    ensures Proper(Share(rs, r))
  {
    ValidIsProper(rs, r);
    if InLike(r) {
      var v :| v in r.values;
      assert v in Included(rs, r.key);
    }
  }

  lemma OneShareIsAny(rs: seq<Requirement>, labels: Labels)
    requires rs != [] && OneShare(rs)
    ensures MergedMatches(rs, labels) <==> SomeMatches(rs, labels)
  {
    if SomeMatches(rs, labels) {
      var i :| 0 <= i < |rs| && Matches(rs[i], labels);
      forall r | r in rs ensures Met(rs, r, labels) {
        assert rs[i] in rs;
      }
    } else if MergedMatches(rs, labels) {
      MergedImpliesSome(rs, labels);
    }
  }

  lemma OtherSharesHide(rs: seq<Requirement>, r: Requirement, s: Requirement) returns (labels: Labels)
    requires AllValid(rs) && r in rs && s in rs && !Alike(Share(rs, r), Share(rs, s))
    ensures SomeMatches(rs, labels) && !MergedMatches(rs, labels)
  {
    ShareIsProper(rs, r);
    ShareIsProper(rs, s);
    labels := LabelsTellApart(Share(rs, r), Share(rs, s));
    ShareIsMet(rs, r, labels);
    ShareIsMet(rs, s, labels);
    var met := if Met(rs, r, labels) then r else s;
    assert Met(rs, met, labels);
    var t :| t in rs && Matches(t, labels);
    var i :| 0 <= i < |rs| && rs[i] == t;
  }

  /** The merged selector shows all that some requirement matches exactly when there is but one share. */
  lemma MergedIsAnyIff(rs: seq<Requirement>)
    requires AllValid(rs) && rs != []
    ensures (forall labels: Labels :: MergedMatches(rs, labels) <==> SomeMatches(rs, labels)) <==> OneShare(rs)
  {
    if OneShare(rs) {
      forall labels: Labels ensures MergedMatches(rs, labels) <==> SomeMatches(rs, labels) {
        OneShareIsAny(rs, labels);
      }
    } else {
      var r, s :| r in rs && s in rs
        && !(r.key == s.key && Normal(r.op) == Normal(s.op) && (NotInLike(r) ==> r.values == s.values));
      var _ := OtherSharesHide(rs, r, s);
    }
  }

  // ---------- Rules ----------

  /** The rule takes part in the operation on the resource. */
  ghost predicate TakesPart(gvk: Option<Gvk>, operation: Operation, tenants: seq<ProxyTenant>, cr: ClusterResource) {
    RuleMatches(gvk, cr) && Serves(cr, operation) && cr.selector.Selects? && exists t :: t in tenants && cr in t.clusterResources
  }

  /** The rule enables an operation exactly when its configured operations serve it. */
  lemma AllowsIff(cr: ClusterResource, operation: Operation)
    ensures Allows(cr, operation) <==> Serves(cr, operation)
  {
  }

  /** Some rule that takes part selects the labels with its own selector. */
  ghost predicate Selected(gvk: Option<Gvk>, operation: Operation, tenants: seq<ProxyTenant>, labels: Labels) {
    exists cr :: TakesPart(gvk, operation, tenants, cr) && SelectorMatches(cr.selector.requirements, labels)
  }

  lemma {:induction false} RuleRequirementsOf(gvk: Option<Gvk>, operation: Operation, rules: seq<ClusterResource>, r: Requirement)
    ensures r in RuleRequirements(gvk, operation, rules) <==>
      exists cr :: cr in rules && Contributes(gvk, operation, cr) && r in cr.selector.requirements
  {
    if rules != [] {
      var front, last := rules[..|rules| - 1], rules[|rules| - 1];
      RuleRequirementsOf(gvk, operation, front, r);
      assert rules == front + [last];
    }
  }

  /** The requirements are those of the rules that take part. */
  lemma {:induction false} RequirementsOf(gvk: Option<Gvk>, operation: Operation, tenants: seq<ProxyTenant>, r: Requirement)
    ensures r in Requirements(gvk, operation, tenants) <==>
      exists cr :: TakesPart(gvk, operation, tenants, cr) && r in cr.selector.requirements
  {
    if tenants != [] {
      var front, last := tenants[..|tenants| - 1], tenants[|tenants| - 1];
      RequirementsOf(gvk, operation, front, r);
      RuleRequirementsOf(gvk, operation, last.clusterResources, r);
      assert tenants == front + [last];
      forall cr ensures TakesPart(gvk, operation, tenants, cr) <==>
        TakesPart(gvk, operation, front, cr) || (Contributes(gvk, operation, cr) && cr in last.clusterResources)
      {
        AllowsIff(cr, operation);
      }
    }
  }

  // ---------- Rules for GET alone ----------

  /** The rules that serve the operation. */
  function Serving(rules: seq<ClusterResource>, operation: Operation): seq<ClusterResource> {
    if rules == [] then []
    else
      var last := rules[|rules| - 1];
      Serving(rules[..|rules| - 1], operation) + (if Serves(last, operation) then [last] else [])
  }

  function ServingTenants(tenants: seq<ProxyTenant>, operation: Operation): seq<ProxyTenant> {
    if tenants == [] then []
    else
      ServingTenants(tenants[..|tenants| - 1], operation)
        + [ProxyTenant(Serving(tenants[|tenants| - 1].clusterResources, operation))]
  }

  lemma RuleRequirementsSnoc(gvk: Option<Gvk>, operation: Operation, rules: seq<ClusterResource>, cr: ClusterResource)
    ensures RuleRequirements(gvk, operation, rules + [cr]) ==
      RuleRequirements(gvk, operation, rules)
        + (if RuleMatches(gvk, cr) && Serves(cr, operation) && cr.selector.Selects? then cr.selector.requirements else [])
  {
    assert (rules + [cr])[..|rules|] == rules;
    AllowsIff(cr, operation);
  }

  lemma RequirementsSnoc(gvk: Option<Gvk>, operation: Operation, tenants: seq<ProxyTenant>, t: ProxyTenant)
    ensures Requirements(gvk, operation, tenants + [t]) ==
      Requirements(gvk, operation, tenants) + RuleRequirements(gvk, operation, t.clusterResources)
  {
    assert (tenants + [t])[..|tenants|] == tenants;
  }

  lemma {:induction false} OtherRulesDoNotCount(gvk: Option<Gvk>, operation: Operation, rules: seq<ClusterResource>)
    ensures RuleRequirements(gvk, operation, Serving(rules, operation)) == RuleRequirements(gvk, operation, rules)
  {
    if rules != [] {
      var front, last := rules[..|rules| - 1], rules[|rules| - 1];
      OtherRulesDoNotCount(gvk, operation, front);
      assert rules == front + [last];
      RuleRequirementsSnoc(gvk, operation, front, last);
      if Serves(last, operation) {
        RuleRequirementsSnoc(gvk, operation, Serving(front, operation), last);
      } else {
        assert Serving(rules, operation) == Serving(front, operation);
      }
    }
  }

  /** Dropping the rules that do not serve an operation, such as those for GET alone from LIST, changes nothing of it. */
  lemma {:induction false} OnlyServingRulesCount(gvk: Option<Gvk>, operation: Operation, tenants: seq<ProxyTenant>)
    ensures Requirements(gvk, operation, ServingTenants(tenants, operation)) == Requirements(gvk, operation, tenants)
  {
    if tenants != [] {
      var front, last := tenants[..|tenants| - 1], tenants[|tenants| - 1];
      OnlyServingRulesCount(gvk, operation, front);
      OtherRulesDoNotCount(gvk, operation, last.clusterResources);
      assert tenants == front + [last];
      RequirementsSnoc(gvk, operation, front, last);
      RequirementsSnoc(gvk, operation, ServingTenants(front, operation), ProxyTenant(Serving(last.clusterResources, operation)));
    }
  }

  /** With rules for GET alone, no LIST has a requirement. */
  lemma GetAloneListsNothing(gvk: Option<Gvk>, tenants: seq<ProxyTenant>)
    requires forall t, cr :: t in tenants && cr in t.clusterResources ==> cr.operations != [] && LIST !in cr.operations
    ensures Requirements(gvk, LIST, tenants) == []
  {
    if Requirements(gvk, LIST, tenants) != [] {
      RequirementsOf(gvk, LIST, tenants, Requirements(gvk, LIST, tenants)[0]);
    }
  }

  /** A matching rule counts in full for GET under any supported operations, and for LIST unless it is for GET alone. */
  lemma MatchingRuleCounts(gvk: Gvk, cr: ClusterResource)
    requires RuleMatches(Some(gvk), cr) && cr.selector.Selects?
    ensures cr.operations == [] || LIST in cr.operations ==>
      Requirements(Some(gvk), LIST, [ProxyTenant([cr])]) == cr.selector.requirements
        && Requirements(Some(gvk), GET, [ProxyTenant([cr])]) == cr.selector.requirements
    ensures cr.operations != [] && LIST !in cr.operations && GET in cr.operations ==>
      Requirements(Some(gvk), LIST, [ProxyTenant([cr])]) == []
        && Requirements(Some(gvk), GET, [ProxyTenant([cr])]) == cr.selector.requirements
  {
    assert [] + [cr] == [cr] && [] + [ProxyTenant([cr])] == [ProxyTenant([cr])];
    RequirementsSnoc(Some(gvk), LIST, [], ProxyTenant([cr]));
    RequirementsSnoc(Some(gvk), GET, [], ProxyTenant([cr]));
    RuleRequirementsSnoc(Some(gvk), LIST, [], cr);
    RuleRequirementsSnoc(Some(gvk), GET, [], cr);
  }

  // ---------- What a rule selects ----------

  /** GET admits whatever a rule with some requirement selects. */
  lemma SelectedIsAdmitted(gvk: Option<Gvk>, operation: Operation, tenants: seq<ProxyTenant>, cr: ClusterResource, labels: Labels)
    requires TakesPart(gvk, operation, tenants, cr)
    requires cr.selector.requirements != [] && SelectorMatches(cr.selector.requirements, labels)
    ensures SomeMatches(Requirements(gvk, operation, tenants), labels)
  {
    var r := cr.selector.requirements[0];
    RequirementsOf(gvk, operation, tenants, r);
    var i :| 0 <= i < |Requirements(gvk, operation, tenants)| && Requirements(gvk, operation, tenants)[i] == r;
  }

  /** Each rule that takes part has a requirement, and all of its are alike: as when each has just one. */
  ghost predicate Uniform(gvk: Option<Gvk>, operation: Operation, tenants: seq<ProxyTenant>) {
    forall cr :: TakesPart(gvk, operation, tenants, cr) ==> cr.selector.requirements != [] && AllAlike(cr.selector.requirements)
  }

  /** With uniform rules GET admits just what some rule selects. */
  lemma AdmittedIsSelected(gvk: Option<Gvk>, operation: Operation, tenants: seq<ProxyTenant>, labels: Labels)
    requires Uniform(gvk, operation, tenants)
    ensures SomeMatches(Requirements(gvk, operation, tenants), labels) <==> Selected(gvk, operation, tenants, labels)
  {
    var requirements := Requirements(gvk, operation, tenants);
    if SomeMatches(requirements, labels) {
      var i :| 0 <= i < |requirements| && Matches(requirements[i], labels);
      RequirementsOf(gvk, operation, tenants, requirements[i]);
      var cr :| TakesPart(gvk, operation, tenants, cr) && requirements[i] in cr.selector.requirements;
      var j :| 0 <= j < |cr.selector.requirements| && cr.selector.requirements[j] == requirements[i];
      AlikeAnyIsAll(cr.selector.requirements, labels);
    }
    if cr :| TakesPart(gvk, operation, tenants, cr) && SelectorMatches(cr.selector.requirements, labels) {
      SelectedIsAdmitted(gvk, operation, tenants, cr, labels);
    }
  }

  /** With uniform rules of one share, LIST shows just what some rule selects. */
  lemma ShownIsSelected(gvk: Option<Gvk>, tenants: seq<ProxyTenant>, labels: Labels)
    requires Uniform(gvk, LIST, tenants)
    requires Requirements(gvk, LIST, tenants) != [] && OneShare(Requirements(gvk, LIST, tenants))
    ensures MergedMatches(Requirements(gvk, LIST, tenants), labels) <==> Selected(gvk, LIST, tenants, labels)
  {
    AdmittedIsSelected(gvk, LIST, tenants, labels);
    OneShareIsAny(Requirements(gvk, LIST, tenants), labels);
  }

  // ---------- Where LIST and GET depart from the rules ----------

  /** A rule on all groups, resources and operations. */
  function Everywhere(requirements: seq<Requirement>): ClusterResource {
    ClusterResource(["*"], ["*"], [], Selects(requirements))
  }

  lemma EverywhereContributes(gvk: Gvk, operation: Operation, requirements: seq<Requirement>)
    requires operation == LIST || operation == GET
    ensures Contributes(Some(gvk), operation, Everywhere(requirements))
  {
    assert Everywhere(requirements).apiGroups[0] == "*";
  }

  lemma TwoRulesRequire(gvk: Gvk, operation: Operation, a: seq<Requirement>, b: seq<Requirement>)
    requires operation == LIST || operation == GET
    ensures Requirements(Some(gvk), operation, [ProxyTenant([Everywhere(a), Everywhere(b)])]) == a + b
  {
    EverywhereContributes(gvk, operation, a);
    EverywhereContributes(gvk, operation, b);
    var rules, tenants := [Everywhere(a), Everywhere(b)], [ProxyTenant([Everywhere(a), Everywhere(b)])];
    assert rules[..1] == [Everywhere(a)] && [Everywhere(a)][..0] == [] && tenants[..0] == [];
    assert RuleRequirements(Some(gvk), operation, []) == [];
    assert RuleRequirements(Some(gvk), operation, [Everywhere(a)]) == a;
    assert RuleRequirements(Some(gvk), operation, rules) == a + b;
  }

  lemma TwoRulesSelect(gvk: Gvk, operation: Operation, a: seq<Requirement>, b: seq<Requirement>, labels: Labels)
    requires operation == LIST || operation == GET
    ensures Selected(Some(gvk), operation, [ProxyTenant([Everywhere(a), Everywhere(b)])], labels) <==>
      SelectorMatches(a, labels) || SelectorMatches(b, labels)
  {
    EverywhereContributes(gvk, operation, a);
    EverywhereContributes(gvk, operation, b);
    var t := ProxyTenant([Everywhere(a), Everywhere(b)]);
    assert t in [t] && Everywhere(a) in t.clusterResources && Everywhere(b) in t.clusterResources;
    assert TakesPart(Some(gvk), operation, [t], Everywhere(a)) && TakesPart(Some(gvk), operation, [t], Everywhere(b));
    assert forall cr :: TakesPart(Some(gvk), operation, [t], cr) ==> cr == Everywhere(a) || cr == Everywhere(b);
  }

  function Labelled(key: string, value: string): Requirement { Requirement(key, In, {value}) }

  /** A rule that selects a=1 and b=2 lets GET admit an object with a=1 alone. */
  lemma GetAdmitsUnselected(gvk: Gvk)
    ensures var rule, labels := [Labelled("a", "1"), Labelled("b", "2")], map["a" := "1"];
      var tenants := [ProxyTenant([Everywhere(rule), Everywhere(rule)])];
      SomeMatches(Requirements(Some(gvk), GET, tenants), labels) && !Selected(Some(gvk), GET, tenants, labels)
  {
    var rule, labels := [Labelled("a", "1"), Labelled("b", "2")], map["a" := "1"];
    TwoRulesRequire(gvk, GET, rule, rule);
    TwoRulesSelect(gvk, GET, rule, rule, labels);
    assert Matches((rule + rule)[0], labels);
    assert "b" != "a" && !Matches(rule[1], labels);
  }

  /** Of two rules for a=1 and b=2, LIST hides an object the first selects. */
  lemma ListHidesSelected(gvk: Gvk)
    ensures var a, b, labels := [Labelled("a", "1")], [Labelled("b", "2")], map["a" := "1"];
      var tenants := [ProxyTenant([Everywhere(a), Everywhere(b)])];
      !MergedMatches(Requirements(Some(gvk), LIST, tenants), labels) && Selected(Some(gvk), LIST, tenants, labels)
  {
    var a, b, labels := [Labelled("a", "1")], [Labelled("b", "2")], map["a" := "1"];
    TwoRulesRequire(gvk, LIST, a, b);
    TwoRulesSelect(gvk, LIST, a, b, labels);
    assert (a + b)[1] == Labelled("b", "2");
    assert Labelled("b", "2") in a + b;
    assert "b" != "a" && !Met(a + b, Labelled("b", "2"), labels);
  }

  /** A rule with the empty selector selects every object and counts for nothing. */
  lemma EmptySelectorIsIgnored(gvk: Gvk, operation: Operation, labels: Labels)
    requires operation == LIST || operation == GET
    ensures var tenants := [ProxyTenant([Everywhere([]), Everywhere([])])];
      Requirements(Some(gvk), operation, tenants) == [] && Selected(Some(gvk), operation, tenants, labels)
  {
    TwoRulesRequire(gvk, operation, [], []);
    TwoRulesSelect(gvk, operation, [], [], labels);
  }
}
