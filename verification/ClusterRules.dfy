/** Cluster-scoped rules: which requirements a request gets, and how LIST and GET use them. */
module ClusterRules {
  import opened Paths
  import opened Patterns
  import opened Selectors
  import opened Text
  import opened Wrappers

  type Operation = string

  const LIST: Operation := "List"
  const GET: Operation := "Get"

  /** A rule's label selector as converted by `LabelSelectorAsSelector`: broken, selecting nothing, or requirements. */
  datatype RuleSelector = Broken | SelectsNothing | Selects(requirements: seq<Requirement>)

  datatype ClusterResource = ClusterResource(
    apiGroups: seq<string>, resources: seq<string>, operations: seq<Operation>, selector: RuleSelector)

  datatype ProxyTenant = ProxyTenant(clusterResources: seq<ClusterResource>)

  /** Requirements come out of the conversion valid. */
  ghost predicate ValidRules(tenants: seq<ProxyTenant>) {
    forall t, cr :: t in tenants && cr in t.clusterResources && cr.selector.Selects? ==> AllValid(cr.selector.requirements)
  }

  // ---------- Operations ----------

  /** A rule's operations: GET and LIST when none is configured, and LIST brings GET along. */
  predicate Allows(cr: ClusterResource, operation: Operation) {
    if |cr.operations| == 0 then operation == LIST || operation == GET
    else operation in cr.operations || (operation == GET && LIST in cr.operations)
  }

  /** What the documentation of the operations field promises, one operation at a time. */
  predicate Serves(cr: ClusterResource, operation: Operation) {
    match operation
    case "List" => cr.operations == [] || "List" in cr.operations
    case "Get" => cr.operations == [] || "List" in cr.operations || "Get" in cr.operations
    case _ => operation in cr.operations
  }

  method AllowsOperation(cr: ClusterResource, operation: Operation) returns (allowed: bool)
    ensures allowed <==> Allows(cr, operation)
    ensures allowed <==> Serves(cr, operation)
  {
    if |cr.operations| == 0 {
      return operation == LIST || operation == GET;
    }
    for i := 0 to |cr.operations|
      invariant operation !in cr.operations[..i] && !(operation == GET && LIST in cr.operations[..i])
    {
      var configured := cr.operations[i];
      if configured == operation || (operation == GET && configured == LIST) {
        return true;
      }
    }
    allowed := false;
  }

  function Effective(cr: ClusterResource): seq<Operation> {
    (if Allows(cr, LIST) then [LIST] else []) + (if Allows(cr, GET) then [GET] else [])
  }

  /** The supported operations a rule enables: each exactly when the rule allows it, LIST first, nothing else. */
  method EffectiveOperations(cr: ClusterResource) returns (operations: seq<Operation>)
    ensures LIST in operations <==> Serves(cr, LIST)
    ensures GET in operations <==> Serves(cr, GET)
    ensures operations == Effective(cr)
  {
    var list, get := |cr.operations| == 0, |cr.operations| == 0;
    for i := 0 to |cr.operations|
      invariant list <==> |cr.operations| == 0 || LIST in cr.operations[..i]
      invariant get <==> |cr.operations| == 0 || LIST in cr.operations[..i] || GET in cr.operations[..i]
    {
      if cr.operations[i] == LIST {
        list := true;
        get := true;
      } else if cr.operations[i] == GET {
        get := true;
      }
    }
    assert cr.operations[..|cr.operations|] == cr.operations;
    operations := [];
    if list {
      operations := operations + [LIST];
    }
    if get {
      operations := operations + [GET];
    }
  }

  // ---------- Matching a rule ----------

  predicate GroupMatches(apiGroup: string, gvk: Gvk) {
    apiGroup == "*" || Accepts(apiGroup, if SLASH in apiGroup then gvk.group + [SLASH] + gvk.version else gvk.group)
  }

  predicate RuleMatches(gvk: Option<Gvk>, cr: ClusterResource) {
    && gvk.Some?
    && ("*" in cr.resources || gvk.value.kind in cr.resources)
    && exists i :: 0 <= i < |cr.apiGroups| && GroupMatches(cr.apiGroups[i], gvk.value)
  }

  method MatchResource(gvk: Option<Gvk>, cr: ClusterResource) returns (matches: bool)
    ensures matches <==> RuleMatches(gvk, cr)
  {
    if gvk.None? {
      return false;
    }
    var kindMatch := false;
    for i := 0 to |cr.resources|
      invariant !kindMatch && "*" !in cr.resources[..i] && gvk.value.kind !in cr.resources[..i]
    {
      if cr.resources[i] == "*" || cr.resources[i] == gvk.value.kind {
        kindMatch := true;
        break;
      }
    }
    if !kindMatch {
      return false;
    }
    for i := 0 to |cr.apiGroups|
      invariant forall j :: 0 <= j < i ==> !GroupMatches(cr.apiGroups[j], gvk.value)
    {
      var apiGroup := cr.apiGroups[i];
      if apiGroup == "*" {
        return true;
      }
      var target := gvk.value.group;
      if SLASH in apiGroup {
        target := gvk.value.group + [SLASH] + gvk.value.version;
      }
      var accepted := MatchPattern(apiGroup, target);
      if accepted {
        return true;
      }
    }
    matches := false;
  }

  // ---------- Requirements ----------

  predicate Contributes(gvk: Option<Gvk>, operation: Operation, cr: ClusterResource) {
    RuleMatches(gvk, cr) && Allows(cr, operation) && cr.selector.Selects?
  }

  /** The requirements of the contributing rules, in order. */
  function RuleRequirements(gvk: Option<Gvk>, operation: Operation, rules: seq<ClusterResource>): seq<Requirement> {
    if rules == [] then []
    else
      var last := rules[|rules| - 1];
      RuleRequirements(gvk, operation, rules[..|rules| - 1])
        + (if Contributes(gvk, operation, last) then last.selector.requirements else [])
  }

  function Requirements(gvk: Option<Gvk>, operation: Operation, tenants: seq<ProxyTenant>): seq<Requirement> {
    if tenants == [] then []
    else
      Requirements(gvk, operation, tenants[..|tenants| - 1])
        + RuleRequirements(gvk, operation, tenants[|tenants| - 1].clusterResources)
  }

  method GetClusterScopeRequirements(gvk: Option<Gvk>, operation: Operation, tenants: seq<ProxyTenant>)
    returns (requirements: seq<Requirement>)
    ensures requirements == Requirements(gvk, operation, tenants)
  {
    requirements := [];
    for i := 0 to |tenants|
      invariant requirements == Requirements(gvk, operation, tenants[..i])
    {
      assert tenants[..i + 1][..i] == tenants[..i];
      var rules := tenants[i].clusterResources;
      ghost var before := requirements;
      for j := 0 to |rules|
        invariant requirements == before + RuleRequirements(gvk, operation, rules[..j])
      {
        assert rules[..j + 1][..j] == rules[..j];
        var cr := rules[j];
        var matches := MatchResource(gvk, cr);
        if !matches {
          continue;
        }
        var allowed := AllowsOperation(cr, operation);
        if !allowed {
          continue;
        }
        if !cr.selector.Selects? {
          continue;
        }
        requirements := requirements + cr.selector.requirements;
      }
      assert rules[..|rules|] == rules;
    }
    assert tenants[..|tenants|] == tenants;
  }

  // ---------- From LIST to GET ----------

  lemma {:induction false} ListRulesAreGetRules(gvk: Option<Gvk>, rules: seq<ClusterResource>, r: Requirement)
    requires r in RuleRequirements(gvk, LIST, rules)
    ensures r in RuleRequirements(gvk, GET, rules)
  {
    if rules != [] && r in RuleRequirements(gvk, LIST, rules[..|rules| - 1]) {
      ListRulesAreGetRules(gvk, rules[..|rules| - 1], r);
    }
  }

  /** Every requirement that shapes a LIST is one of the requirements of the GET on the same resource. */
  lemma {:induction false} ListIsWithinGet(gvk: Option<Gvk>, tenants: seq<ProxyTenant>, r: Requirement)
    requires r in Requirements(gvk, LIST, tenants)
    ensures r in Requirements(gvk, GET, tenants)
  {
    if tenants != [] {
      var front, rules := tenants[..|tenants| - 1], tenants[|tenants| - 1].clusterResources;
      if r in Requirements(gvk, LIST, front) {
        ListIsWithinGet(gvk, front, r);
      } else {
        ListRulesAreGetRules(gvk, rules, r);
      }
    }
  }

  lemma {:induction false} RuleRequirementsValid(gvk: Option<Gvk>, operation: Operation, rules: seq<ClusterResource>)
    requires forall cr :: cr in rules && cr.selector.Selects? ==> AllValid(cr.selector.requirements)
    ensures AllValid(RuleRequirements(gvk, operation, rules))
  {
    if rules != [] {
      RuleRequirementsValid(gvk, operation, rules[..|rules| - 1]);
      assert rules[|rules| - 1] in rules;
    }
  }

  lemma {:induction false} RequirementsValid(gvk: Option<Gvk>, operation: Operation, tenants: seq<ProxyTenant>)
    requires ValidRules(tenants)
    ensures AllValid(Requirements(gvk, operation, tenants))
  {
    if tenants != [] {
      var front, last := tenants[..|tenants| - 1], tenants[|tenants| - 1];
      assert last in tenants;
      RequirementsValid(gvk, operation, front);
      RuleRequirementsValid(gvk, operation, last.clusterResources);
    }
  }

  /** What the merged LIST selector shows, some GET requirement admits. */
  lemma ShownIsAdmitted(gvk: Option<Gvk>, tenants: seq<ProxyTenant>, labels: Labels)
    requires Requirements(gvk, LIST, tenants) != []
    requires MergedMatches(Requirements(gvk, LIST, tenants), labels)
    ensures SomeMatches(Requirements(gvk, GET, tenants), labels)
  {
    var shown, admitted := Requirements(gvk, LIST, tenants), Requirements(gvk, GET, tenants);
    MergedImpliesSome(shown, labels);
    var i :| 0 <= i < |shown| && Matches(shown[i], labels);
    ListIsWithinGet(gvk, tenants, shown[i]);
    var j :| 0 <= j < |admitted| && admitted[j] == shown[i];
  }

  // ---------- The two handlers ----------

  /** The label key no object is expected to carry. */
  const NO_SUCH_LABEL := "dontexistsignoreme"

  datatype HandlerError = BadSelector(cause: SelectorError) | UnknownResource | NoSuchObject

  /** The selector of a LIST; no selector for other methods. */
  method HandleList(isGet: bool, path: string, tenants: seq<ProxyTenant>)
    returns (r: Result<Option<seq<Requirement>>, HandlerError>)
    requires ValidRules(tenants)
    ensures r.Ok?
    ensures r.value.None? <==> !isGet && Requirements(GvkFromUrl(path), LIST, tenants) != []
    ensures r.value.Some? ==> forall labels ::
      SelectorMatches(r.value.value, labels) <==> ListShows(path, tenants, labels)
  {
    var gvk := GvkFromUrl(path);
    var requirements := GetClusterScopeRequirements(gvk, LIST, tenants);
    if |requirements| > 0 {
      if !isGet {
        return Ok(None);
      }
      RequirementsValid(gvk, LIST, tenants);
      var selector := HandleListSelector(requirements);
      return Ok(Some(selector.value));
    }
    var none := Requirement(NO_SUCH_LABEL, Exists, {});
    r := Ok(Some([none]));
    assert forall labels :: SelectorMatches([none], labels) <==> Matches([none][0], labels);
  }

  /** The objects a LIST shows. Without requirements those that carry the label nothing is meant to carry. */
  ghost predicate ListShows(path: string, tenants: seq<ProxyTenant>, labels: Labels) {
    var requirements := Requirements(GvkFromUrl(path), LIST, tenants);
    if requirements != [] then MergedMatches(requirements, labels) else NO_SUCH_LABEL in labels
  }

  /** What the API server knows: kinds by group, version and plural name, and objects by kind and name. */
  datatype Cluster = Cluster(kinds: map<Gvk, string>, objects: map<(Gvk, string), Labels>)

  /** The selector of a named GET: the first requirement the object matches, none when nothing matches. */
  method HandleGet(isGet: bool, path: string, name: string, tenants: seq<ProxyTenant>, cluster: Cluster)
    returns (r: Result<Option<seq<Requirement>>, HandlerError>)
    ensures var requirements := Requirements(GvkFromUrl(path), GET, tenants);
      requirements == [] || !isGet ==> r == Ok(None)
    ensures var requirements := Requirements(GvkFromUrl(path), GET, tenants);
      requirements != [] && isGet ==>
        && GvkFromUrl(path).Some?
        && r == GetAnswer(requirements, GvkFromUrl(path).value, name, cluster)
  {
    var gvk := GvkFromUrl(path);
    var requirements := GetClusterScopeRequirements(gvk, GET, tenants);
    if |requirements| > 0 {
      if !isGet {
        return Ok(None);
      }
      RequirementsNeedGvk(gvk, GET, tenants);
      r := HandleSelector(gvk.value, requirements, name, cluster);
      return;
    }
    r := Ok(None);
  }

  /** The answer to a GET with requirements. */
  function GetAnswer(requirements: seq<Requirement>, gvk: Gvk, name: string, cluster: Cluster)
    : Result<Option<seq<Requirement>>, HandlerError>
  {
    if gvk !in cluster.kinds then Err(UnknownResource)
    else
      var key := (gvk.(kind := cluster.kinds[gvk]), name);
      if key !in cluster.objects then Err(NoSuchObject)
      else Ok(FirstMatching(requirements, cluster.objects[key]))
  }

  lemma {:induction false} RequirementsNeedGvk(gvk: Option<Gvk>, operation: Operation, tenants: seq<ProxyTenant>)
    ensures Requirements(gvk, operation, tenants) != [] ==> gvk.Some?
  {
    if tenants != [] {
      RequirementsNeedGvk(gvk, operation, tenants[..|tenants| - 1]);
      RulesNeedGvk(gvk, operation, tenants[|tenants| - 1].clusterResources);
    }
  }

  lemma {:induction false} RulesNeedGvk(gvk: Option<Gvk>, operation: Operation, rules: seq<ClusterResource>)
    ensures RuleRequirements(gvk, operation, rules) != [] ==> gvk.Some?
  {
    if rules != [] { RulesNeedGvk(gvk, operation, rules[..|rules| - 1]); }
  }

  /** The kind replaces the plural name, the object is read, the first matching requirement is the selector. */
  method HandleSelector(gvk: Gvk, requirements: seq<Requirement>, name: string, cluster: Cluster)
    returns (r: Result<Option<seq<Requirement>>, HandlerError>)
    ensures r == GetAnswer(requirements, gvk, name, cluster)
    ensures gvk !in cluster.kinds ==> r == Err(UnknownResource)
    ensures gvk in cluster.kinds && (Gvk(gvk.group, gvk.version, cluster.kinds[gvk]), name) !in cluster.objects ==> r == Err(NoSuchObject)
    ensures gvk in cluster.kinds && (Gvk(gvk.group, gvk.version, cluster.kinds[gvk]), name) in cluster.objects ==>
      var labels := cluster.objects[(Gvk(gvk.group, gvk.version, cluster.kinds[gvk]), name)];
      r.Ok? && (r.value.Some? <==> SomeMatches(requirements, labels))
  {
    if gvk !in cluster.kinds {
      return Err(UnknownResource);
    }
    var resolved := gvk.(kind := cluster.kinds[gvk]);
    if (resolved, name) !in cluster.objects {
      return Err(NoSuchObject);
    }
    FirstMatchingFacts(requirements, cluster.objects[(resolved, name)]);
    var selector := FirstMatch(requirements, cluster.objects[(resolved, name)]);
    r := Ok(selector);
  }

  /** The cluster serves the resource and holds the object with these labels. */
  predicate Holds(cluster: Cluster, g: Gvk, name: string, labels: Labels) {
    g in cluster.kinds &&
    var key := (g.(kind := cluster.kinds[g]), name);
    key in cluster.objects && cluster.objects[key] == labels
  }

  /** The GET on the object's own path is answered with a selector the object matches. */
  predicate GetAdmits(g: Gvk, name: string, tenants: seq<ProxyTenant>, cluster: Cluster, labels: Labels) {
    var requirements := Requirements(GvkFromUrl(NamedPath(g, name)), GET, tenants);
    && requirements != []
    && GetAnswer(requirements, g, name, cluster).Ok?
    && GetAnswer(requirements, g, name, cluster).value.Some?
    && SelectorMatches(GetAnswer(requirements, g, name, cluster).value.value, labels)
  }

  lemma GetAdmitsIff(g: Gvk, name: string, tenants: seq<ProxyTenant>, cluster: Cluster, labels: Labels)
    requires Printable(g) && Segment(name) && Holds(cluster, g, name, labels)
    ensures GetAdmits(g, name, tenants, cluster, labels) <==> SomeMatches(Requirements(Some(g), GET, tenants), labels)
  {
    PathRoundTrip(g, name);
    FirstMatchingFacts(Requirements(Some(g), GET, tenants), labels);
  }

  /** A cluster with just this object. */
  function OneObject(g: Gvk, name: string, labels: Labels): Cluster {
    Cluster(map[g := "Kind"], map[(g.(kind := "Kind"), name) := labels])
  }

  /** Every object the LIST on the collection path shows is admitted by the GET on its own path. */
  ghost predicate ListedIsGettable(g: Gvk, name: string, tenants: seq<ProxyTenant>) {
    forall cluster, labels :: Holds(cluster, g, name, labels) && ListShows(Path(g), tenants, labels) ==>
      GetAdmits(g, name, tenants, cluster, labels)
  }

  /**
   * End to end: it is so exactly when the LIST has a requirement, or those of the GET leave no way out to an
   * object that carries the label nothing is meant to carry.
   */
  lemma ListedObjectIsGettable(g: Gvk, name: string, tenants: seq<ProxyTenant>)
    requires Printable(g) && Segment(name)
    ensures ListedIsGettable(g, name, tenants) <==>
      Requirements(Some(g), LIST, tenants) != [] || Inescapable(Requirements(Some(g), GET, tenants), NO_SUCH_LABEL)
  {
    PathRoundTrip(g, name);
    var requirements := Requirements(Some(g), GET, tenants);
    InescapableIff(requirements, NO_SUCH_LABEL);
    if Requirements(Some(g), LIST, tenants) != [] || Inescapable(requirements, NO_SUCH_LABEL) {
      forall cluster, labels | Holds(cluster, g, name, labels) && ListShows(Path(g), tenants, labels)
        ensures GetAdmits(g, name, tenants, cluster, labels)
      {
        GetAdmitsIff(g, name, tenants, cluster, labels);
        if Requirements(Some(g), LIST, tenants) != [] { ShownIsAdmitted(Some(g), tenants, labels); }
      }
    } else {
      var labels: Labels :| NO_SUCH_LABEL in labels && !SomeMatches(requirements, labels);
      GetAdmitsIff(g, name, tenants, OneObject(g, name, labels), labels);
      assert ListShows(Path(g), tenants, labels);
    }
  }

  /** Without any rule, an object that carries the label is listed and cannot be fetched. */
  lemma ReservedLabelIsShown(g: Gvk, name: string, value: string)
    requires Printable(g) && Segment(name)
    ensures var labels := map[NO_SUCH_LABEL := value];
      && Holds(OneObject(g, name, labels), g, name, labels)
      && ListShows(Path(g), [], labels)
      && !GetAdmits(g, name, [], OneObject(g, name, labels), labels)
  {
  }

  // ---------- Namespaces ----------

  const NAMESPACES_GVK := Gvk("", "v1", "namespaces")

  /** The resource clients list namespaces under. */
  lemma NamespacesAreListedThere()
    ensures GvkFromUrl("/api/" + ("v1" + "/" + "namespaces")) == Some(NAMESPACES_GVK)
  {
    PathText(NAMESPACES_GVK);
    PathRoundTrip(NAMESPACES_GVK, "name");
  }

  ghost predicate ListedNamespace(tenants: seq<ProxyTenant>, labels: Labels) {
    var requirements := Requirements(Some(NAMESPACES_GVK), LIST, tenants);
    requirements != [] && MergedMatches(requirements, labels)
  }

  ghost predicate AdmittedNamespace(tenants: seq<ProxyTenant>, labels: Labels) {
    SomeMatches(Requirements(Some(NAMESPACES_GVK), GET, tenants), labels)
  }

  /** The names of the namespaces selected by cluster-scoped LIST rules. */
  method ClusterScopedNamespaceNames(tenants: seq<ProxyTenant>, namespaces: map<string, Labels>)
    returns (r: Result<seq<string>, HandlerError>)
    requires ValidRules(tenants)
    ensures r.Ok?
    ensures forall name :: name in r.value <==> name in namespaces && ListedNamespace(tenants, namespaces[name])
  {
    var requirements := GetClusterScopeRequirements(Some(NAMESPACES_GVK), LIST, tenants);
    if |requirements| == 0 {
      return Ok([]);
    }
    RequirementsValid(Some(NAMESPACES_GVK), LIST, tenants);
    var selector := HandleListSelector(requirements);
    var names: seq<string> := [];
    var rest := namespaces.Keys;
    while rest != {}
      invariant rest <= namespaces.Keys
      invariant forall name :: name in names <==>
        name in namespaces.Keys - rest && SelectorMatches(selector.value, namespaces[name])
      decreases rest
    {
      var name :| name in rest;
      if SelectorMatches(selector.value, namespaces[name]) {
        names := names + [name];
      }
      rest := rest - {name};
    }
    r := Ok(names);
  }

  method MatchesClusterScopedNamespace(tenants: seq<ProxyTenant>, labels: Labels) returns (matches: bool)
    ensures matches <==> AdmittedNamespace(tenants, labels)
  {
    var requirements := GetClusterScopeRequirements(Some(NAMESPACES_GVK), GET, tenants);
    for i := 0 to |requirements|
      invariant forall j :: 0 <= j < i ==> !Matches(requirements[j], labels)
    {
      if Matches(requirements[i], labels) {
        return true;
      }
    }
    matches := false;
  }

  /** Every namespace name the LIST side yields is admitted by the GET side. */
  lemma ListedNamespaceIsAdmitted(tenants: seq<ProxyTenant>, labels: Labels)
    requires ListedNamespace(tenants, labels)
    ensures AdmittedNamespace(tenants, labels)
  {
    ShownIsAdmitted(Some(NAMESPACES_GVK), tenants, labels);
  }
}
