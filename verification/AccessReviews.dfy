/** The proxy's additions to self review answers, and that they advertise what LIST and GET enforce. */
module AccessReviews {
  import opened ClusterRules
  import opened GroupVersions
  import opened Kubernetes
  import opened Paths
  import opened Patterns
  import opened RuleSelection
  import opened Selectors
  import opened Text
  import opened Wrappers

  datatype Attributes = Attributes(verb: string, group: string, version: string, resource: string, namespace: string)

  datatype ResourceRule = ResourceRule(apiGroups: seq<string>, resources: seq<string>, verbs: seq<string>)

  const GRANT_REASON := "granted by capsule-proxy"

  /** `strings.ToLower` on ASCII letters. */
  function Lower(s: string): (r: string)
    ensures |r| == |s| && forall i :: 0 <= i < |s| ==> r[i] == LowerChar(s[i])
  {
    seq(|s|, i requires 0 <= i < |s| => LowerChar(s[i]))
  }

  /** `strings.EqualFold` on ASCII letters. */
  predicate EqualFold(a: string, b: string) { Lower(a) == Lower(b) }

  function NamespacedResourceKey(group: string, resource: string): string { group + [SLASH] + resource }

  function ClusterResourceOperation(verb: string): Option<Operation> {
    if EqualFold(verb, "list") then Some(LIST) else if EqualFold(verb, "get") then Some(GET) else None
  }

  /** Tenant owners may always list namespaces. */
  predicate NamespacesShortcut(a: Attributes) { a.resource == "namespaces" && EqualFold(a.verb, "list") }

  /** Tenant owners may list and watch proxied namespaced resources across namespaces. */
  predicate AllNamespacesShortcut(a: Attributes, tenants: seq<ProxyTenant>, namespacedResources: set<string>) {
    && |tenants| > 0 && a.namespace == ""
    && (EqualFold(a.verb, "list") || EqualFold(a.verb, "watch"))
    && NamespacedResourceKey(a.group, a.resource) in namespacedResources
  }

  function ReviewGvk(a: Attributes): Gvk { Gvk(a.group, a.version, a.resource) }

  predicate Granted(gate: bool, tenants: seq<ProxyTenant>, namespacedResources: set<string>, a: Attributes) {
    || NamespacesShortcut(a)
    || AllNamespacesShortcut(a, tenants, namespacedResources)
    || (&& gate
        && ClusterResourceOperation(a.verb).Some?
        && Requirements(Some(ReviewGvk(a)), ClusterResourceOperation(a.verb).value, tenants) != [])
  }

  class SelfSubjectAccessReview {
    const attributes: Option<Attributes>
    var allowed: bool
    var denied: bool
    var reason: string

    constructor (attributes: Option<Attributes>, allowed: bool, denied: bool, reason: string)
      ensures this.attributes == attributes && this.allowed == allowed && this.denied == denied && this.reason == reason
    {
      this.attributes, this.allowed, this.denied, this.reason := attributes, allowed, denied, reason;
    }

    method GrantAccess()
      modifies this
      ensures allowed && !denied && reason == GRANT_REASON
    {
      allowed := true;
      denied := false;
      reason := GRANT_REASON;
    }
  }

  class SelfSubjectRulesReview {
    var resourceRules: seq<ResourceRule>

    constructor (resourceRules: seq<ResourceRule>)
      ensures this.resourceRules == resourceRules
    {
      this.resourceRules := resourceRules;
    }
  }

  /** The access review case: granted exactly in the three cases, otherwise the answer stands as it was. */
  method MutateAccessReview(gate: bool, tenants: seq<ProxyTenant>, namespacedResources: set<string>,
                            review: SelfSubjectAccessReview)
    modifies review
    ensures var a := review.attributes;
      if a.Some? && Granted(gate, tenants, namespacedResources, a.value) then
        review.allowed && !review.denied && review.reason == GRANT_REASON
      else
        review.allowed == old(review.allowed) && review.denied == old(review.denied) && review.reason == old(review.reason)
    ensures old(review.allowed) ==> review.allowed
  {
    if review.attributes.None? {
      return;
    }
    var a := review.attributes.value;
    if a.resource == "namespaces" && EqualFold(a.verb, "list") {
      review.GrantAccess();
      return;
    }
    if |tenants| > 0 && a.namespace == "" && (EqualFold(a.verb, "list") || EqualFold(a.verb, "watch"))
       && NamespacedResourceKey(a.group, a.resource) in namespacedResources
    {
      review.GrantAccess();
      return;
    }
    if !gate {
      return;
    }
    var operation := ClusterResourceOperation(a.verb);
    if operation.None? {
      return;
    }
    var requirements := GetClusterScopeRequirements(Some(ReviewGvk(a)), operation.value, tenants);
    if |requirements| > 0 {
      review.GrantAccess();
    }
  }

  // ---------- Access reviews against LIST and GET ----------

  /** The resource of a review in one of the versions it is served in. */
  function ServedGvk(a: Attributes, served: string): Gvk { Gvk(a.group, served, a.resource) }

  /**
   * With the gate on and outside the two shortcuts, an access review for list is granted iff the LIST on the
   * printed path of its resource has requirements; likewise for get and the GET on an object's path. A review
   * without a version stands for every served one, provided no rule on the resource asks for a version.
   */
  lemma ReviewsMatchHandlers(tenants: seq<ProxyTenant>, namespacedResources: set<string>, a: Attributes,
                             served: string, name: string)
    requires !NamespacesShortcut(a) && !AllNamespacesShortcut(a, tenants, namespacedResources)
    requires SLASH !in a.group && Segment(a.resource) && Segment(served) && Segment(name)
    requires a.version == served || (a.version == "" && BlindRules(tenants, a.resource))
    ensures EqualFold(a.verb, "list") ==>
      (Granted(true, tenants, namespacedResources, a) <==>
        Requirements(GvkFromUrl(Path(ServedGvk(a, served))), LIST, tenants) != [])
    ensures EqualFold(a.verb, "get") ==>
      (Granted(true, tenants, namespacedResources, a) <==>
        Requirements(GvkFromUrl(NamedPath(ServedGvk(a, served), name)), GET, tenants) != [])
    ensures !EqualFold(a.verb, "list") && !EqualFold(a.verb, "get") ==> !Granted(true, tenants, namespacedResources, a)
  {
    PathRoundTrip(ServedGvk(a, served), name);
    if a.version != served {
      BlindRequirements(tenants, LIST, a.group, served, a.resource);
      BlindRequirements(tenants, GET, a.group, served, a.resource);
    }
    if EqualFold(a.verb, "get") {
      assert Lower("list")[0] == 'l' && Lower("get")[0] == 'g';
    }
  }

  /** Every list review without a version is granted iff the LIST on each served version has requirements. */
  ghost predicate VersionlessReviewsMatch(tenants: seq<ProxyTenant>) {
    forall a: Attributes, served ::
      (&& a.version == "" && EqualFold(a.verb, "list") && !NamespacesShortcut(a)
       && SLASH !in a.group && Segment(a.resource) && Segment(served)) ==>
      (Granted(true, tenants, {}, a) <==> Requirements(GvkFromUrl(Path(ServedGvk(a, served))), LIST, tenants) != [])
  }

  /** With one rule on all resources, a list review is granted iff the rule's group pattern matches it. */
  lemma OneRuleGrants(apiGroup: string, r: Requirement, a: Attributes)
    requires a.verb == "list" && a.resource != "namespaces"
    ensures Granted(true, OneRule(apiGroup, r), {}, a) <==> GroupMatches(apiGroup, ReviewGvk(a))
  {
    OneRuleRequirements(apiGroup, r, ReviewGvk(a), LIST);
  }

  lemma OneRuleLists(apiGroup: string, r: Requirement, gvk: Gvk)
    requires Printable(gvk)
    ensures Requirements(GvkFromUrl(Path(gvk)), LIST, OneRule(apiGroup, r)) != [] <==> GroupMatches(apiGroup, gvk)
  {
    PathRoundTrip(gvk, "name");
    OneRuleRequirements(apiGroup, r, gvk, LIST);
  }

  /** The condition on the rules is exact, pattern by pattern. */
  lemma VersionlessReviewsIff(apiGroup: string, r: Requirement)
    ensures VersionlessReviewsMatch(OneRule(apiGroup, r)) <==> VersionBlind(apiGroup)
  {
    if VersionBlind(apiGroup) {
      BlindReviewsMatch(OneRule(apiGroup, r));
    } else {
      var group, served := SightedPattern(apiGroup, "things");
      var a := Attributes("list", group, "", "things", "");
      assert a.resource != "namespaces" by { assert "things"[0] != "namespaces"[0]; }
      OneRuleGrants(apiGroup, r, a);
      OneRuleLists(apiGroup, r, ServedGvk(a, served));
    }
  }

  lemma BlindReviewsMatch(tenants: seq<ProxyTenant>)
    requires forall t, cr :: t in tenants && cr in t.clusterResources ==> BlindRule(cr)
    ensures VersionlessReviewsMatch(tenants)
  {
    forall a: Attributes, served |
      && a.version == "" && EqualFold(a.verb, "list") && !NamespacesShortcut(a)
      && SLASH !in a.group && Segment(a.resource) && Segment(served)
      ensures Granted(true, tenants, {}, a) <==> Requirements(GvkFromUrl(Path(ServedGvk(a, served))), LIST, tenants) != []
    {
      ReviewsMatchHandlers(tenants, {}, a, served, "name");
    }
  }

  /** A rule for one group and version: the LIST has requirements, a review that leaves the version out is not granted. */
  lemma PinnedVersionIsMissed(group: string, version: string, resource: string, r: Requirement)
    requires STAR !in group && STAR !in version && SLASH !in group && Segment(version)
    requires Segment(resource) && resource != "namespaces"
    ensures var rules := OneRule(group + [SLASH] + version, r);
      && !Granted(true, rules, {}, Attributes("list", group, "", resource, "ns"))
      && Requirements(GvkFromUrl(Path(Gvk(group, version, resource))), LIST, rules) != []
  {
    var pattern := group + [SLASH] + version;
    assert pattern[|group|] == SLASH;
    OneRuleGrants(pattern, r, Attributes("list", group, "", resource, "ns"));
    OneRuleLists(pattern, r, Gvk(group, version, resource));
    LiteralGroup(pattern, Gvk(group, "", resource));
    LiteralGroup(pattern, Gvk(group, version, resource));
    assert |group + [SLASH] + ""| < |pattern|;
  }

  /** So with `apps/v1` and deployments. */
  lemma VersionlessReviewIsMissed(r: Requirement)
    ensures var rules := OneRule("apps" + [SLASH] + "v1", r);
      && !Granted(true, rules, {}, Attributes("list", "apps", "", "deployments", "ns"))
      && Requirements(GvkFromUrl(Path(Gvk("apps", "v1", "deployments"))), LIST, rules) != []
  {
    assert "deployments"[0] != "namespaces"[0];
    PinnedVersionIsMissed("apps", "v1", "deployments", r);
  }

  /** A rule that lets something be listed lets it be fetched, in reviews as in handlers. */
  lemma ListGrantImpliesGetGrant(gvk: Gvk, tenants: seq<ProxyTenant>)
    requires Requirements(Some(gvk), LIST, tenants) != []
    ensures Requirements(Some(gvk), GET, tenants) != []
  {
    ListIsWithinGet(Some(gvk), tenants, Requirements(Some(gvk), LIST, tenants)[0]);
  }

  // ---------- Rules reviews ----------

  function RuleOf(cr: ClusterResource): ResourceRule {
    ResourceRule(cr.apiGroups, cr.resources,
                 (if Allows(cr, LIST) then ["list"] else []) + (if Allows(cr, GET) then ["get"] else []))
  }

  function RulesOf(rules: seq<ClusterResource>): seq<ResourceRule> {
    if rules == [] then [] else RulesOf(rules[..|rules| - 1]) + [RuleOf(rules[|rules| - 1])]
  }

  function AllRules(tenants: seq<ProxyTenant>): seq<ResourceRule> {
    if tenants == [] then [] else AllRules(tenants[..|tenants| - 1]) + RulesOf(tenants[|tenants| - 1].clusterResources)
  }

  method GetAllResourceRules(tenants: seq<ProxyTenant>) returns (resourceRules: seq<ResourceRule>)
    ensures resourceRules == AllRules(tenants)
  {
    resourceRules := [];
    for i := 0 to |tenants|
      invariant resourceRules == AllRules(tenants[..i])
    {
      assert tenants[..i + 1][..i] == tenants[..i];
      var rules := tenants[i].clusterResources;
      ghost var before := resourceRules;
      for j := 0 to |rules|
        invariant resourceRules == before + RulesOf(rules[..j])
      {
        assert rules[..j + 1][..j] == rules[..j];
        var verbs := RuleVerbs(rules[j]);
        resourceRules := resourceRules + [ResourceRule(rules[j].apiGroups, rules[j].resources, verbs)];
      }
      assert rules[..|rules|] == rules;
    }
    assert tenants[..|tenants|] == tenants;
  }

  /** The lower-cased effective operations. */
  method RuleVerbs(cr: ClusterResource) returns (verbs: seq<string>)
    ensures verbs == RuleOf(cr).verbs
  {
    var operations := EffectiveOperations(cr);
    assert Lower(LIST) == "list" && Lower(GET) == "get";
    verbs := [];
    for i := 0 to |operations|
      invariant |verbs| == i && forall j :: 0 <= j < i ==> verbs[j] == Lower(operations[j])
    {
      verbs := verbs + [Lower(operations[i])];
    }
  }

  /** The rules review case: the API server's rules are kept, the proxy's follow. */
  method MutateRulesReview(gate: bool, tenants: seq<ProxyTenant>, review: SelfSubjectRulesReview)
    modifies review
    ensures review.resourceRules ==
      old(review.resourceRules) + [ResourceRule([""], ["namespaces"], ["list"])] + (if gate then AllRules(tenants) else [])
  {
    var injected := [ResourceRule([""], ["namespaces"], ["list"])];
    if gate {
      var rules := GetAllResourceRules(tenants);
      injected := injected + rules;
    }
    review.resourceRules := review.resourceRules + injected;
  }

  /** What the API server answered: one of the two self reviews, or something else. */
  datatype ReviewObject =
    | AccessReview(access: SelfSubjectAccessReview)
    | RulesReview(rules: SelfSubjectRulesReview)
    | OtherKind(kind: string)

  /** The object the mutation may change. */
  function Mutable(obj: ReviewObject): set<object> {
    match obj
    case AccessReview(access) => {access}
    case RulesReview(rules) => {rules}
    case OtherKind(_) => {}
  }

  /** `MutateAuthorization`: an error for any other kind, which is left alone. */
  method MutateAuthorization(gate: bool, tenants: seq<ProxyTenant>, namespacedResources: set<string>, obj: ReviewObject)
    returns (unsupported: Option<string>)
    modifies Mutable(obj)
    ensures unsupported == if obj.OtherKind? then Some(obj.kind) else None
    ensures obj.AccessReview? ==>
      var a := obj.access.attributes;
      if a.Some? && Granted(gate, tenants, namespacedResources, a.value) then
        obj.access.allowed && !obj.access.denied && obj.access.reason == GRANT_REASON
      else
        obj.access.allowed == old(obj.access.allowed) && obj.access.denied == old(obj.access.denied)
        && obj.access.reason == old(obj.access.reason)
    ensures obj.RulesReview? ==>
      obj.rules.resourceRules ==
        old(obj.rules.resourceRules) + [ResourceRule([""], ["namespaces"], ["list"])] + (if gate then AllRules(tenants) else [])
  {
    match obj {
      case AccessReview(access) => MutateAccessReview(gate, tenants, namespacedResources, access);
      case RulesReview(rules) => MutateRulesReview(gate, tenants, rules);
      case OtherKind(kind) => return Some(kind);
    }
    unsupported := None;
  }

  lemma {:induction false} RulesOfMembers(rules: seq<ClusterResource>, rule: ResourceRule)
    ensures rule in RulesOf(rules) <==> exists cr :: cr in rules && RuleOf(cr) == rule
  {
    if rules != [] {
      RulesOfMembers(rules[..|rules| - 1], rule);
      assert rules == rules[..|rules| - 1] + [rules[|rules| - 1]];
    }
  }

  /** The rule advertises one of these tenants' rules. */
  ghost predicate Advertises(tenants: seq<ProxyTenant>, rule: ResourceRule) {
    exists t, cr :: t in tenants && cr in t.clusterResources && rule == RuleOf(cr)
  }

  lemma AdvertisesSnoc(front: seq<ProxyTenant>, last: ProxyTenant, rule: ResourceRule)
    ensures Advertises(front + [last], rule) <==>
      Advertises(front, rule) || exists cr :: cr in last.clusterResources && RuleOf(cr) == rule
  {
    assert forall t :: t in front + [last] <==> t in front || t == last;
  }

  /** The advertised rules are the configured ones. */
  lemma {:induction false} AdvertisedAreConfigured(tenants: seq<ProxyTenant>, rule: ResourceRule)
    ensures rule in AllRules(tenants) <==> Advertises(tenants, rule)
  {
    if tenants != [] {
      var front, last := tenants[..|tenants| - 1], tenants[|tenants| - 1];
      AdvertisedAreConfigured(front, rule);
      RulesOfMembers(last.clusterResources, rule);
      AdvertisesSnoc(front, last, rule);
      assert tenants == front + [last];
    }
  }

  /** A rule is advertised for its own groups and resources with exactly the verbs its operations enforce. */
  lemma VerbsAreEnforced(cr: ClusterResource)
    ensures var rule := RuleOf(cr);
      && rule.apiGroups == cr.apiGroups && rule.resources == cr.resources
      && ("list" in rule.verbs <==> Allows(cr, LIST))
      && ("get" in rule.verbs <==> Allows(cr, GET))
  {
    assert "list"[0] != "get"[0];
  }

  /** Every advertised rule is a configured one, and every configured one is advertised, with the verbs it enforces. */
  lemma AdvertisedIsEnforced(tenants: seq<ProxyTenant>)
    ensures forall rule :: rule in AllRules(tenants) ==>
      exists t, cr :: t in tenants && cr in t.clusterResources && rule == RuleOf(cr)
        && ("list" in rule.verbs <==> Allows(cr, LIST)) && ("get" in rule.verbs <==> Allows(cr, GET))
    ensures forall t, cr :: t in tenants && cr in t.clusterResources ==> RuleOf(cr) in AllRules(tenants)
  {
    forall rule { AdvertisedAreConfigured(tenants, rule); }
    forall cr { VerbsAreEnforced(cr); }
    forall t, cr | t in tenants && cr in t.clusterResources ensures RuleOf(cr) in AllRules(tenants) {
      assert Advertises(tenants, RuleOf(cr));
    }
  }
  // ---------- The shortcuts ----------

  lemma FoldingIgnoresCase(a: string, b: string)
    ensures EqualFold(a, b) <==> SameButCase(a, b)
  {
    if |a| == |b| {
      forall i | 0 <= i < |a|
        ensures LowerChar(a[i]) == LowerChar(b[i]) <==> SameLetter(a[i], b[i])
      {
        CaseOfLetters(a[i], b[i]);
      }
      if EqualFold(a, b) {
        forall i | 0 <= i < |a| ensures LowerChar(a[i]) == LowerChar(b[i]) {
          assert Lower(a)[i] == Lower(b)[i];
        }
      }
    } else {
      assert |Lower(a)| != |Lower(b)|;
    }
  }

  /** Keys of resources are told apart when groups have no slash. */
  lemma ResourceKeysDiffer(group: string, resource: string, group': string, resource': string)
    requires SLASH !in group && SLASH !in group'
    ensures NamespacedResourceKey(group, resource) == NamespacedResourceKey(group', resource') <==>
      group == group' && resource == resource'
  {
    if NamespacedResourceKey(group, resource) == NamespacedResourceKey(group', resource') {
      EqualHeads(group, resource, group', resource', SLASH);
    }
  }

  /** The registered namespaced resources, by group and plural name. */
  function Registered(resources: set<(string, string)>): set<string> {
    set r | r in resources :: NamespacedResourceKey(r.0, r.1)
  }

  /**
   * With the gate off, what is granted is exactly: listing namespaces; and to tenant owners, listing or watching
   * a registered namespaced resource without naming a namespace. Nothing is granted within a namespace.
   */
  lemma GrantedWithoutGateIff(tenants: seq<ProxyTenant>, resources: set<(string, string)>, a: Attributes)
    requires SLASH !in a.group && forall r :: r in resources ==> SLASH !in r.0
    ensures Granted(false, tenants, Registered(resources), a) <==>
      || (a.resource == "namespaces" && SameButCase(a.verb, "list"))
      || (tenants != [] && a.namespace == "" && (SameButCase(a.verb, "list") || SameButCase(a.verb, "watch"))
          && (a.group, a.resource) in resources)
  {
    FoldingIgnoresCase(a.verb, "list");
    FoldingIgnoresCase(a.verb, "watch");
    RegisteredIff(resources, a.group, a.resource);
  }

  lemma RegisteredIff(resources: set<(string, string)>, group: string, resource: string)
    requires SLASH !in group && forall r :: r in resources ==> SLASH !in r.0
    ensures NamespacedResourceKey(group, resource) in Registered(resources) <==> (group, resource) in resources
  {
    forall r | r in resources
      ensures NamespacedResourceKey(group, resource) == NamespacedResourceKey(r.0, r.1) <==> r == (group, resource)
    {
      ResourceKeysDiffer(group, resource, r.0, r.1);
    }
  }

  /** Within a namespace the gate adds what the rules require, and nothing else is granted but listing namespaces. */
  lemma GrantedWithinNamespaceIff(gate: bool, tenants: seq<ProxyTenant>, namespacedResources: set<string>, a: Attributes)
    requires a.namespace != ""
    ensures Granted(gate, tenants, namespacedResources, a) <==>
      || (a.resource == "namespaces" && SameButCase(a.verb, "list"))
      || (gate && SameButCase(a.verb, "list") && Requirements(Some(Gvk(a.group, a.version, a.resource)), LIST, tenants) != [])
      || (gate && SameButCase(a.verb, "get") && Requirements(Some(Gvk(a.group, a.version, a.resource)), GET, tenants) != [])
  {
    FoldingIgnoresCase(a.verb, "list");
    FoldingIgnoresCase(a.verb, "get");
  }

  /** Through rules for GET alone, no list is granted or advertised. */
  lemma GetAloneGrantsNoList(tenants: seq<ProxyTenant>, a: Attributes)
    requires forall t, cr :: t in tenants && cr in t.clusterResources ==> cr.operations != [] && LIST !in cr.operations
    requires a.resource != "namespaces" && SameButCase(a.verb, "list")
    ensures !Granted(true, tenants, {}, a)
    ensures forall rule :: rule in AllRules(tenants) ==> "list" !in rule.verbs
  {
    FoldingIgnoresCase(a.verb, "list");
    GetAloneListsNothing(Some(ReviewGvk(a)), tenants);
    forall rule | rule in AllRules(tenants) ensures "list" !in rule.verbs {
      AdvertisedAreConfigured(tenants, rule);
      var t, cr :| t in tenants && cr in t.clusterResources && rule == RuleOf(cr);
      VerbsAreEnforced(cr);
      AllowsIff(cr, LIST);
    }
  }

  /** The advertised verbs are those of the configured operations. */
  lemma VerbsAreConfigured(cr: ClusterResource)
    ensures "list" in RuleOf(cr).verbs <==> cr.operations == [] || "List" in cr.operations
    ensures "get" in RuleOf(cr).verbs <==> cr.operations == [] || "List" in cr.operations || "Get" in cr.operations
  {
    VerbsAreEnforced(cr);
    AllowsIff(cr, LIST);
    AllowsIff(cr, GET);
  }
}
