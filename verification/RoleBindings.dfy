/**
 * RBAC reflection: the subject index, the indexed lookup of namespaces and tenants, and the direct
 * scan of all RoleBindings the lookup stands for.
 */
module RoleBindings {
  import opened Kubernetes
  import opened Ordering
  import opened Text
  import opened Wrappers

  datatype Subject = Subject(kind: string, namespace: string, name: string)
  datatype RoleRef = RoleRef(apiGroup: string, kind: string, name: string)
  datatype RoleBinding = RoleBinding(
    namespace: string, name: string, labels: map<string, string>, roleRef: RoleRef, subjects: seq<Subject>)
  datatype PolicyRule = PolicyRule(
    verbs: seq<string>, apiGroups: seq<string>, resources: seq<string>, resourceNames: seq<string>)
  datatype OwnerReference = OwnerReference(kind: string, name: string)
  datatype Namespace = Namespace(labels: map<string, string>, owners: seq<OwnerReference>)

  /** The four informer stores: RoleBindings, Roles by namespace and name, ClusterRoles, Namespaces. */
  datatype Stores = Stores(
    bindings: set<RoleBinding>,
    roles: map<(string, string), seq<PolicyRule>>,
    clusterRoles: map<string, seq<PolicyRule>>,
    namespaces: map<string, Namespace>)

  /** A request's question: who wants to do what on which kind of resource. */
  datatype Question = Question(username: string, groups: seq<string>, verb: string, apiGroup: string, resource: string)

  datatype LookupError = InvalidServiceAccountName

  const REFLECTION_LABEL := "reflection.proxy.projectcapsule.dev/enabled"
  const RBAC_GROUP := "rbac.authorization.k8s.io"
  const USER := "User"
  const GROUP := "Group"
  const SERVICE_ACCOUNT := "ServiceAccount"
  const NEW_TENANT_LABEL := "projectcapsule.dev/tenant"
  const TENANT_LABEL := "capsule.clastix.io/tenant"

  // ---------- The subject index ----------

  function IndexParts(s: Subject): seq<string> {
    [s.kind] + (if |s.namespace| > 0 then [s.namespace] else []) + [s.name]
  }

  function IndexValue(s: Subject): string { Join(IndexParts(s), '-') }

  /** The two indexes: over all RoleBindings, and over the labelled ones only. */
  datatype IndexName = SubjectIndex | ReflectionSubjectIndex

  predicate Reflected(b: RoleBinding) {
    REFLECTION_LABEL in b.labels && b.labels[REFLECTION_LABEL] == "true"
  }

  /** The binding is filed under the key. */
  predicate Indexed(b: RoleBinding, index: IndexName, key: string) {
    && (index.ReflectionSubjectIndex? ==> Reflected(b))
    && exists i :: 0 <= i < |b.subjects| && IndexValue(b.subjects[i]) == key
  }

  method OwnerRoleBindingsIndexFunc(b: RoleBinding) returns (result: seq<string>)
    ensures forall key :: key in result <==> Indexed(b, SubjectIndex, key)
  {
    result := [];
    for i := 0 to |b.subjects|
      invariant forall key :: key in result <==> exists j :: 0 <= j < i && IndexValue(b.subjects[j]) == key
    {
      var subject := b.subjects[i];
      var parts := [subject.kind];
      if |subject.namespace| > 0 {
        parts := parts + [subject.namespace];
      }
      parts := parts + [subject.name];
      assert parts == IndexParts(subject);
      result := result + [Join(parts, '-')];
    }
  }

  method ReflectionRoleBindingsIndexFunc(b: RoleBinding) returns (result: seq<string>)
    ensures forall key :: key in result <==> Indexed(b, ReflectionSubjectIndex, key)
  {
    if REFLECTION_LABEL !in b.labels || b.labels[REFLECTION_LABEL] != "true" {
      return [];
    }
    result := OwnerRoleBindingsIndexFunc(b);
  }

  // ---------- The indexed lookup ----------

  function GroupKeys(groups: seq<string>): (keys: seq<string>)
    ensures |keys| == |groups| && forall i :: 0 <= i < |keys| ==> keys[i] == GROUP + ['-'] + groups[i]
  {
    seq(|groups|, i requires 0 <= i < |groups| => GROUP + ['-'] + groups[i])
  }

  /** The index keys a requester is looked up under. */
  function SubjectKeys(username: string, groups: seq<string>): Result<seq<string>, LookupError> {
    if HasPrefix(username, SERVICE_ACCOUNT_PREFIX) then
      match SplitUsername(username)
      case None => Err(InvalidServiceAccountName)
      case Some((namespace, name)) =>
        Ok([SERVICE_ACCOUNT + ['-'] + namespace + ['-'] + name] + GroupKeys(groups))
    else
      Ok([USER + ['-'] + username] + GroupKeys(groups))
  }

  function ListIndexed(stores: Stores, index: IndexName, key: string): set<RoleBinding> {
    set b | b in stores.bindings && Indexed(b, index, key)
  }

  function BindingsUnder(stores: Stores, index: IndexName, keys: seq<string>): set<RoleBinding> {
    set b | b in stores.bindings && exists i :: 0 <= i < |keys| && Indexed(b, index, keys[i])
  }

  predicate MatchesRbacValue(values: seq<string>, requested: string) {
    exists i :: 0 <= i < |values| && (values[i] == "*" || values[i] == requested)
  }

  predicate PolicyRuleAllows(rule: PolicyRule, verb: string, apiGroup: string, resource: string) {
    && |rule.resourceNames| == 0
    && MatchesRbacValue(rule.verbs, verb)
    && MatchesRbacValue(rule.apiGroups, apiGroup)
    && MatchesRbacValue(rule.resources, resource)
  }

  predicate RulesAllow(rules: seq<PolicyRule>, q: Question) {
    exists i :: 0 <= i < |rules| && PolicyRuleAllows(rules[i], q.verb, q.apiGroup, q.resource)
  }

  /** The rules of the role a binding points at, when that role exists. */
  function ReferencedRules(stores: Stores, b: RoleBinding): Option<seq<PolicyRule>> {
    if b.roleRef.apiGroup != RBAC_GROUP then None
    else if b.roleRef.kind == "Role" then
      var key := (b.namespace, b.roleRef.name);
      if key in stores.roles then Some(stores.roles[key]) else None
    else if b.roleRef.kind == "ClusterRole" then
      if b.roleRef.name in stores.clusterRoles then Some(stores.clusterRoles[b.roleRef.name]) else None
    else None
  }

  predicate Grants(stores: Stores, b: RoleBinding, q: Question) {
    var rules := ReferencedRules(stores, b);
    rules.Some? && RulesAllow(rules.value, q)
  }

  function GrantedNamespaces(stores: Stores, bindings: set<RoleBinding>, q: Question): set<string> {
    set b | b in bindings && Grants(stores, b, q) :: b.namespace
  }

  /** The namespaces the indexed lookup yields. */
  function ReflectedNamespaces(stores: Stores, q: Question): Result<set<string>, LookupError> {
    match SubjectKeys(q.username, q.groups)
    case Err(e) => Err(e)
    case Ok(keys) => Ok(GrantedNamespaces(stores, BindingsUnder(stores, ReflectionSubjectIndex, keys), q))
  }

  function FirstTenantOwner(owners: seq<OwnerReference>): string {
    if owners == [] then "" else if owners[0].kind == "Tenant" then owners[0].name else FirstTenantOwner(owners[1..])
  }

  function LabelOr(labels: map<string, string>, key: string): string {
    if key in labels then labels[key] else ""
  }

  function TenantName(ns: Namespace): string {
    if LabelOr(ns.labels, NEW_TENANT_LABEL) != "" then LabelOr(ns.labels, NEW_TENANT_LABEL)
    else if LabelOr(ns.labels, TENANT_LABEL) != "" then LabelOr(ns.labels, TENANT_LABEL)
    else FirstTenantOwner(ns.owners)
  }

  function TenantsOf(stores: Stores, names: set<string>): set<string> {
    set n | n in names && n in stores.namespaces && TenantName(stores.namespaces[n]) != "" :: TenantName(stores.namespaces[n])
  }

  /** A fresh answer: the tenants of the reflected namespaces, sorted, all read from one state of the stores. */
  function Fresh(stores: Stores, q: Question): Result<seq<string>, LookupError> {
    match ReflectedNamespaces(stores, q)
    case Err(e) => Err(e)
    case Ok(names) => Ok(SortedList(TenantsOf(stores, names)))
  }

  // ---------- The lookup as the reflector runs it ----------

  /** What the API server enforces on names: namespaces are DNS labels, a name is used once in a namespace. */
  ghost predicate ValidStores(stores: Stores) {
    && (forall b :: b in stores.bindings ==> IsDnsLabel(b.namespace))
    && (forall b, c :: b in stores.bindings && c in stores.bindings && b.namespace == c.namespace && b.name == c.name
          ==> b == c)
  }

  /** A list call: the matching items in no particular order. */
  method List(stores: Stores, index: IndexName, key: string) returns (items: seq<RoleBinding>)
    ensures forall b :: b in items <==> b in ListIndexed(stores, index, key)
  {
    items := [];
    var rest := ListIndexed(stores, index, key);
    while rest != {}
      invariant rest <= ListIndexed(stores, index, key)
      invariant forall b :: b in items <==> b in ListIndexed(stores, index, key) - rest
      decreases rest
    {
      var b :| b in rest;
      items := items + [b];
      rest := rest - {b};
    }
  }

  /** The key the lookup files a binding under to drop repetitions. */
  function BindingKey(b: RoleBinding): string { b.namespace + ['/'] + b.name }

  lemma BindingKeyInjective(stores: Stores, b: RoleBinding, c: RoleBinding)
    requires ValidStores(stores) && b in stores.bindings && c in stores.bindings
    ensures BindingKey(b) == BindingKey(c) ==> b == c
  {
    if BindingKey(b) == BindingKey(c) {
      EqualHeads(b.namespace, b.name, c.namespace, c.name, '/');
    }
  }

  /** The map files exactly these bindings under their keys. */
  ghost predicate Files(filed: map<string, RoleBinding>, bindings: set<RoleBinding>) {
    && (forall k :: k in filed ==> filed[k] in bindings && k == BindingKey(filed[k]))
    && (forall b :: b in bindings ==> BindingKey(b) in filed && filed[BindingKey(b)] == b)
  }

  lemma FileOne(stores: Stores, filed: map<string, RoleBinding>, bindings: set<RoleBinding>, b: RoleBinding)
    requires ValidStores(stores) && bindings <= stores.bindings && b in stores.bindings && Files(filed, bindings)
    ensures Files(filed[BindingKey(b) := b], bindings + {b})
  {
    forall c | c in bindings ensures BindingKey(b) == BindingKey(c) ==> b == c {
      BindingKeyInjective(stores, b, c);
    }
  }

  method GetRoleBindingsForSubject(stores: Stores, username: string, groups: seq<string>, index: IndexName)
    returns (r: Result<seq<RoleBinding>, LookupError>)
    requires ValidStores(stores)
    ensures r.Ok? <==> SubjectKeys(username, groups).Ok?
    ensures r.Err? ==> r.error == SubjectKeys(username, groups).error
    ensures r.Ok? ==> Distinct(r.value)
    ensures r.Ok? ==>
      forall b :: b in r.value <==> b in BindingsUnder(stores, index, SubjectKeys(username, groups).value)
  {
    var keys: seq<string> := [];
    if HasPrefix(username, SERVICE_ACCOUNT_PREFIX) {
      var split := SplitUsername(username);
      if split.None? {
        return Err(InvalidServiceAccountName);
      }
      keys := keys + [SERVICE_ACCOUNT + ['-'] + split.value.0 + ['-'] + split.value.1];
    } else {
      keys := keys + [USER + ['-'] + username];
    }
    ghost var own := keys;
    for i := 0 to |groups|
      invariant keys == own + GroupKeys(groups)[..i]
    {
      keys := keys + [GROUP + ['-'] + groups[i]];
    }
    assert GroupKeys(groups)[..|groups|] == GroupKeys(groups);
    assert keys == SubjectKeys(username, groups).value;

    var bindings := CollectBindings(stores, index, keys);
    var result := FiledBindings(bindings, BindingsUnder(stores, index, keys));
    r := Ok(result);
  }

  /** The filed bindings, each once, in no particular order. */
  method FiledBindings(filed: map<string, RoleBinding>, ghost bindings: set<RoleBinding>) returns (result: seq<RoleBinding>)
    requires Files(filed, bindings)
    ensures Distinct(result)
    ensures forall b :: b in result <==> b in bindings
  {
    result := [];
    var rest := filed.Values;
    assert rest == bindings;
    while rest != {}
      invariant rest <= bindings
      invariant forall b :: b in result <==> b in bindings - rest
      invariant Distinct(result) && forall j :: 0 <= j < |result| ==> result[j] in result
      decreases rest
    {
      var b :| b in rest;
      assert b !in result;
      result := result + [b];
      rest := rest - {b};
    }
  }

  method CollectBindings(stores: Stores, index: IndexName, keys: seq<string>) returns (bindings: map<string, RoleBinding>)
    requires ValidStores(stores)
    ensures Files(bindings, BindingsUnder(stores, index, keys))
  {
    bindings := map[];
    for i := 0 to |keys|
      invariant Files(bindings, BindingsUnder(stores, index, keys[..i]))
    {
      var items := List(stores, index, keys[i]);
      bindings := FileAll(stores, bindings, BindingsUnder(stores, index, keys[..i]), items);
      BindingsUnderSnoc(stores, index, keys[..i], keys[i]);
      assert keys[..i + 1] == keys[..i] + [keys[i]];
      assert Elements(items) == ListIndexed(stores, index, keys[i]);
    }
    assert keys[..|keys|] == keys;
  }

  method FileAll(stores: Stores, filed: map<string, RoleBinding>, ghost bindings: set<RoleBinding>, items: seq<RoleBinding>)
    returns (result: map<string, RoleBinding>)
    requires ValidStores(stores) && bindings <= stores.bindings && Files(filed, bindings)
    requires forall b :: b in items ==> b in stores.bindings
    ensures Files(result, bindings + Elements(items))
  {
    result := filed;
    for j := 0 to |items|
      invariant Files(result, bindings + Elements(items[..j]))
    {
      var b := items[j];
      FileOne(stores, result, bindings + Elements(items[..j]), b);
      result := result[BindingKey(b) := b];
      assert items[..j + 1] == items[..j] + [b];
      assert bindings + Elements(items[..j]) + {b} == bindings + Elements(items[..j + 1]);
    }
    assert items[..|items|] == items;
  }

  lemma BindingsUnderSnoc(stores: Stores, index: IndexName, keys: seq<string>, key: string)
    ensures BindingsUnder(stores, index, keys + [key]) ==
      BindingsUnder(stores, index, keys) + ListIndexed(stores, index, key)
  {
    var all := keys + [key];
    forall b | b in BindingsUnder(stores, index, all)
      ensures b in BindingsUnder(stores, index, keys) + ListIndexed(stores, index, key)
    {
      var i :| 0 <= i < |all| && Indexed(b, index, all[i]);
      if i < |keys| { assert Indexed(b, index, keys[i]); }
    }
    forall b | b in BindingsUnder(stores, index, keys) + ListIndexed(stores, index, key)
      ensures b in BindingsUnder(stores, index, all)
    {
      if b in BindingsUnder(stores, index, keys) {
        var i :| 0 <= i < |keys| && Indexed(b, index, keys[i]);
        assert Indexed(b, index, all[i]);
      } else {
        assert Indexed(b, index, all[|keys|]);
      }
    }
  }

  /** Every namespace with a binding of the subject, whatever the binding grants. */
  method GetUserNamespacesFromRequest(stores: Stores, username: string, groups: seq<string>)
    returns (r: Result<seq<string>, LookupError>)
    requires ValidStores(stores)
    ensures r.Ok? <==> SubjectKeys(username, groups).Ok?
    ensures r.Ok? ==>
      var keys := SubjectKeys(username, groups).value;
      Lists(r.value, set b | b in BindingsUnder(stores, SubjectIndex, keys) :: b.namespace)
  {
    var bindings := GetRoleBindingsForSubject(stores, username, groups, SubjectIndex);
    if bindings.Err? {
      return Err(bindings.error);
    }
    var namespaces: set<string> := {};
    for i := 0 to |bindings.value|
      invariant namespaces == set j | 0 <= j < i :: bindings.value[j].namespace
    {
      namespaces := namespaces + {bindings.value[i].namespace};
    }
    ghost var found := BindingsUnder(stores, SubjectIndex, SubjectKeys(username, groups).value);
    assert namespaces == set b | b in found :: b.namespace by {
      assert forall b :: b in found ==> exists j :: 0 <= j < |bindings.value| && bindings.value[j] == b;
    }
    SortedListSorts(namespaces);
    r := Ok(SortedList(namespaces));
  }

  method RoleRules(stores: Stores, b: RoleBinding) returns (rules: Option<seq<PolicyRule>>)
    ensures rules == ReferencedRules(stores, b)
  {
    if b.roleRef.apiGroup != RBAC_GROUP {
      return None;
    }
    if b.roleRef.kind == "Role" {
      var key := (b.namespace, b.roleRef.name);
      rules := if key in stores.roles then Some(stores.roles[key]) else None;
    } else if b.roleRef.kind == "ClusterRole" {
      rules := if b.roleRef.name in stores.clusterRoles then Some(stores.clusterRoles[b.roleRef.name]) else None;
    } else {
      rules := None;
    }
  }

  method GetUserNamespacesForResource(stores: Stores, q: Question) returns (r: Result<seq<string>, LookupError>)
    requires ValidStores(stores)
    ensures r.Ok? <==> ReflectedNamespaces(stores, q).Ok?
    ensures r.Err? ==> r.error == ReflectedNamespaces(stores, q).error
    ensures r.Ok? ==> Lists(r.value, ReflectedNamespaces(stores, q).value)
  {
    var bindings := GetRoleBindingsForSubject(stores, q.username, q.groups, ReflectionSubjectIndex);
    if bindings.Err? {
      return Err(bindings.error);
    }
    var items := bindings.value;
    var namespaces: set<string> := {};
    for i := 0 to |items|
      invariant namespaces == GrantedNamespaces(stores, set j | 0 <= j < i :: items[j], q)
    {
      var b := items[i];
      var rules := RoleRules(stores, b);
      assert (set j | 0 <= j < i + 1 :: items[j]) == (set j | 0 <= j < i :: items[j]) + {b};
      GrantedSnoc(stores, set j | 0 <= j < i :: items[j], b, q);
      if rules.Some? {
        var k := 0;
        while k < |rules.value|
          invariant 0 <= k <= |rules.value|
          invariant forall l :: 0 <= l < k ==> !PolicyRuleAllows(rules.value[l], q.verb, q.apiGroup, q.resource)
        {
          if PolicyRuleAllows(rules.value[k], q.verb, q.apiGroup, q.resource) {
            namespaces := namespaces + {b.namespace};
            break;
          }
          k := k + 1;
        }
      }
    }
    ghost var found := BindingsUnder(stores, ReflectionSubjectIndex, SubjectKeys(q.username, q.groups).value);
    assert found == set j | 0 <= j < |items| :: items[j] by {
      assert forall b :: b in found ==> exists j :: 0 <= j < |items| && items[j] == b;
    }
    SortedListSorts(namespaces);
    r := Ok(SortedList(namespaces));
  }

  lemma GrantedSnoc(stores: Stores, bindings: set<RoleBinding>, b: RoleBinding, q: Question)
    ensures GrantedNamespaces(stores, bindings + {b}, q) ==
      GrantedNamespaces(stores, bindings, q) + (if Grants(stores, b, q) then {b.namespace} else {})
  {
  }
}
