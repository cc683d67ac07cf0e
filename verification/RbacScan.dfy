/** The indexed RBAC lookup against a direct scan of every RoleBinding with Kubernetes' own subject rules. */
module RbacScan {
  import opened Kubernetes
  import opened Ordering
  import opened RoleBindings
  import opened Text
  import opened Wrappers

  /** Kubernetes' RBAC rule for one subject of a binding in `bindingNamespace`. */
  predicate Applies(s: Subject, bindingNamespace: string, username: string, groups: seq<string>) {
    if s.kind == USER then username == s.name
    else if s.kind == GROUP then s.name in groups
    else if s.kind == SERVICE_ACCOUNT then
      var namespace := if |s.namespace| > 0 then s.namespace else bindingNamespace;
      |namespace| > 0 && username == MakeUsername(namespace, s.name)
    else false
  }

  predicate BindingApplies(b: RoleBinding, username: string, groups: seq<string>) {
    exists i :: 0 <= i < |b.subjects| && Applies(b.subjects[i], b.namespace, username, groups)
  }

  predicate Names(values: seq<string>, requested: string) { "*" in values || requested in values }

  /** Kubernetes' RBAC rule for a request about the object with this name. */
  predicate RuleAllows(rule: PolicyRule, verb: string, apiGroup: string, resource: string, name: string) {
    && Names(rule.verbs, verb) && Names(rule.apiGroups, apiGroup) && Names(rule.resources, resource)
    && (rule.resourceNames == [] || name in rule.resourceNames)
  }

  /** The rules of the Role or ClusterRole the binding points at. */
  predicate RefersTo(stores: Stores, b: RoleBinding, rules: seq<PolicyRule>) {
    b.roleRef.apiGroup == "rbac.authorization.k8s.io" &&
    if b.roleRef.kind == "Role" then ((b.namespace, b.roleRef.name), rules) in stores.roles.Items
    else b.roleRef.kind == "ClusterRole" && (b.roleRef.name, rules) in stores.clusterRoles.Items
  }

  /** The binding admits the request for every object there may be. */
  ghost predicate Admits(stores: Stores, b: RoleBinding, q: Question) {
    exists rules, rule :: RefersTo(stores, b, rules) && rule in rules
      && forall name :: RuleAllows(rule, q.verb, q.apiGroup, q.resource, name)
  }

  /** The binding is labelled for reflection. */
  predicate Labelled(b: RoleBinding) { ("reflection.proxy.projectcapsule.dev/enabled", "true") in b.labels.Items }

  /** The reference answer: scan all labelled bindings, no index. */
  ghost function ScannedNamespaces(stores: Stores, q: Question): set<string> {
    set b | b in stores.bindings && Labelled(b) && BindingApplies(b, q.username, q.groups) && Admits(stores, b, q)
      :: b.namespace
  }

  // ---------- Which rules admit ----------

  /** The reflector takes a rule to admit a request exactly when Kubernetes admits it for objects of every name. */
  lemma RuleAdmitsIff(rule: PolicyRule, verb: string, apiGroup: string, resource: string)
    ensures PolicyRuleAllows(rule, verb, apiGroup, resource) <==>
      forall name :: RuleAllows(rule, verb, apiGroup, resource, name)
  {
    ValuesName(rule.verbs, verb);
    ValuesName(rule.apiGroups, apiGroup);
    ValuesName(rule.resources, resource);
    if forall name :: RuleAllows(rule, verb, apiGroup, resource, name) {
      var name := FreshValue(Elements(rule.resourceNames));
      assert name !in rule.resourceNames by { assert name !in Elements(rule.resourceNames); }
      assert RuleAllows(rule, verb, apiGroup, resource, name);
    }
  }

  lemma ValuesName(values: seq<string>, requested: string)
    ensures MatchesRbacValue(values, requested) <==> Names(values, requested)
  {
    if "*" in values {
      var i :| 0 <= i < |values| && values[i] == "*";
    } else if requested in values {
      var i :| 0 <= i < |values| && values[i] == requested;
    }
  }

  lemma GrantsIff(stores: Stores, b: RoleBinding, q: Question)
    ensures Grants(stores, b, q) <==> Admits(stores, b, q)
  {
    var found := ReferencedRules(stores, b);
    assert forall rules :: RefersTo(stores, b, rules) <==> found == Some(rules);
    if found.Some? {
      var rules := found.value;
      forall rule ensures PolicyRuleAllows(rule, q.verb, q.apiGroup, q.resource) <==>
        forall name :: RuleAllows(rule, q.verb, q.apiGroup, q.resource, name)
      {
        RuleAdmitsIff(rule, q.verb, q.apiGroup, q.resource);
      }
      if Grants(stores, b, q) {
        var i :| 0 <= i < |rules| && PolicyRuleAllows(rules[i], q.verb, q.apiGroup, q.resource);
        assert RefersTo(stores, b, rules) && rules[i] in rules;
      }
      if rule :| rule in rules && PolicyRuleAllows(rule, q.verb, q.apiGroup, q.resource) {
        var i :| 0 <= i < |rules| && rules[i] == rule;
      }
    }
  }

  lemma ReflectedIff(b: RoleBinding)
    ensures Reflected(b) <==> Labelled(b)
  {
  }

  /** The requester is not a service account of a namespace with a dash in its name. */
  predicate Unambiguous(username: string) {
    SplitUsername(username).Some? ==> '-' !in SplitUsername(username).value.0
  }

  predicate IsServiceAccount(username: string) { SplitUsername(username).Some? }

  /** The reflector answers this username: it does not start like a service account's without being one. */
  predicate IsRequester(username: string) { !HasPrefix(username, SERVICE_ACCOUNT_PREFIX) || IsServiceAccount(username) }

  /** The kinds of subject the API server admits. */
  predicate KnownKind(s: Subject) { s.kind in {USER, GROUP, SERVICE_ACCOUNT} }

  // ---------- What the index makes of one subject ----------

  /** The index value without the kind. */
  function Rest(s: Subject): string { if s.namespace == "" then s.name else s.namespace + ['-'] + s.name }

  /** The text reads as an account, cut at its first dash. */
  predicate ReadsAsAccount(text: string) {
    var (namespace, name, found) := Cut(text, '-');
    found && IsDnsLabel(namespace) && IsDnsSubdomain(name)
  }

  /** Every unambiguous requester meets the subject in the index exactly when Kubernetes applies it. */
  ghost predicate IsExact(s: Subject, bindingNamespace: string) {
    forall username, groups :: SubjectKeys(username, groups).Ok? && Unambiguous(username) ==>
      (IndexValue(s) in SubjectKeys(username, groups).value <==> Applies(s, bindingNamespace, username, groups))
  }

  /**
   * The subjects the index gets right. Users: those without a namespace that do not spell a service account's
   * username (and those no requester could be, under either reading). Groups: those without a namespace. Service
   * accounts: those of a dash-free namespace, and those whose text no account reads as its own and, when the
   * namespace is left to the binding, that are no account there.
   */
  predicate Decoded(s: Subject, bindingNamespace: string) {
    if s.kind == USER then
      if s.namespace == "" then !(IsServiceAccount(s.name) && Unambiguous(s.name))
      else !(IsRequester(s.name) && Unambiguous(s.name)) && HasPrefix(Rest(s), SERVICE_ACCOUNT_PREFIX)
    else if s.kind == GROUP then s.namespace == ""
    else if s.namespace == "" then
      && !ReadsAsAccount(s.name)
      && !(IsDnsLabel(bindingNamespace) && '-' !in bindingNamespace && IsDnsSubdomain(s.name))
    else '-' !in s.namespace || !ReadsAsAccount(Rest(s))
  }

  lemma KindDecides(kind: string, rest: string, kind': string, rest': string)
    requires kind in {USER, GROUP, SERVICE_ACCOUNT} && kind' in {USER, GROUP, SERVICE_ACCOUNT}
    ensures kind + ['-'] + rest == kind' + ['-'] + rest' <==> kind == kind' && rest == rest'
  {
    if kind + ['-'] + rest == kind' + ['-'] + rest' {
      EqualHeads(kind, rest, kind', rest', '-');
    }
  }

  lemma IndexValueIs(s: Subject)
    ensures IndexValue(s) == s.kind + ['-'] + Rest(s)
  {
    JoinFew(s.kind, s.name, s.name, '-');
    JoinFew(s.kind, s.namespace, s.name, '-');
    assert s.namespace == "" ==> IndexParts(s) == [s.kind, s.name];
    assert s.namespace != "" ==> IndexParts(s) == [s.kind, s.namespace, s.name];
  }

  lemma KeysShape(username: string, groups: seq<string>)
    requires SubjectKeys(username, groups).Ok?
    ensures var keys := SubjectKeys(username, groups).value; keys == [keys[0]] + GroupKeys(groups)
  {
  }

  lemma GroupsHit(s: Subject, groups: seq<string>)
    requires KnownKind(s)
    ensures IndexValue(s) in GroupKeys(groups) <==> s.kind == GROUP && Rest(s) in groups
  {
    var keys := GroupKeys(groups);
    IndexValueIs(s);
    forall i | 0 <= i < |groups| ensures keys[i] == IndexValue(s) <==> s.kind == GROUP && Rest(s) == groups[i] {
      KindDecides(s.kind, Rest(s), GROUP, groups[i]);
    }
    if s.kind == GROUP && Rest(s) in groups {
      var i :| 0 <= i < |groups| && groups[i] == Rest(s);
      assert keys[i] == IndexValue(s);
    }
  }

  /** The text an account is looked up under. */
  function AccountText(username: string): string
    requires IsServiceAccount(username)
  {
    SplitUsername(username).value.0 + ['-'] + SplitUsername(username).value.1
  }

  lemma OwnKeyHits(s: Subject, username: string, groups: seq<string>)
    requires KnownKind(s) && SubjectKeys(username, groups).Ok?
    ensures IndexValue(s) == SubjectKeys(username, groups).value[0] <==>
      if IsServiceAccount(username) then s.kind == SERVICE_ACCOUNT && Rest(s) == AccountText(username)
      else s.kind == USER && Rest(s) == username
  {
    IndexValueIs(s);
    if IsServiceAccount(username) {
      KindDecides(s.kind, Rest(s), SERVICE_ACCOUNT, AccountText(username));
      assert SubjectKeys(username, groups).value[0] == SERVICE_ACCOUNT + ['-'] + AccountText(username);
    } else {
      KindDecides(s.kind, Rest(s), USER, username);
    }
  }

  /** Whether the index yields a subject to a requester. */
  lemma KeysHit(s: Subject, username: string, groups: seq<string>)
    requires KnownKind(s) && SubjectKeys(username, groups).Ok?
    ensures IndexValue(s) in SubjectKeys(username, groups).value <==>
      if s.kind == GROUP then Rest(s) in groups
      else if s.kind == USER then !IsServiceAccount(username) && Rest(s) == username
      else IsServiceAccount(username) && Rest(s) == AccountText(username)
  {
    KeysShape(username, groups);
    OwnKeyHits(s, username, groups);
    GroupsHit(s, groups);
  }

  function EffectiveNamespace(s: Subject, bindingNamespace: string): string {
    if s.namespace != "" then s.namespace else bindingNamespace
  }

  lemma AccountApplies(s: Subject, bindingNamespace: string, username: string, groups: seq<string>)
    requires s.kind == SERVICE_ACCOUNT && SubjectKeys(username, groups).Ok?
    ensures Applies(s, bindingNamespace, username, groups) <==>
      SplitUsername(username) == Some((EffectiveNamespace(s, bindingNamespace), s.name))
  {
    if IsServiceAccount(username) {
      SplitUsernameInverts(username, EffectiveNamespace(s, bindingNamespace), s.name);
    }
  }

  /** An unambiguous account has a text with its namespace before the first dash. */
  lemma UnambiguousText(username: string, text: string)
    requires IsServiceAccount(username) && Unambiguous(username)
    ensures text == AccountText(username) <==>
      Cut(text, '-') == (SplitUsername(username).value.0, SplitUsername(username).value.1, true)
  {
    var (namespace, name) := SplitUsername(username).value;
    var (head, tail, found) := Cut(text, '-');
    if text == AccountText(username) {
      assert text[|namespace|] == '-';
      EqualHeads(head, tail, namespace, name, '-');
    }
  }

  // ---------- The subjects the index gets right ----------

  lemma AccountHits(s: Subject, bindingNamespace: string, username: string, groups: seq<string>)
    requires s.kind == SERVICE_ACCOUNT && Decoded(s, bindingNamespace)
    requires SubjectKeys(username, groups).Ok? && Unambiguous(username)
    ensures IndexValue(s) in SubjectKeys(username, groups).value <==> Applies(s, bindingNamespace, username, groups)
  {
    KeysHit(s, username, groups);
    AccountApplies(s, bindingNamespace, username, groups);
    if IsServiceAccount(username) {
      UnambiguousText(username, Rest(s));
      if s.namespace != "" && '-' !in s.namespace {
        var (head, tail, found) := Cut(Rest(s), '-');
        assert Rest(s)[|s.namespace|] == '-';
        EqualHeads(head, tail, s.namespace, s.name, '-');
      }
    }
  }

  lemma SubjectHits(s: Subject, bindingNamespace: string, username: string, groups: seq<string>)
    requires KnownKind(s) && Decoded(s, bindingNamespace)
    requires SubjectKeys(username, groups).Ok? && Unambiguous(username)
    ensures IndexValue(s) in SubjectKeys(username, groups).value <==> Applies(s, bindingNamespace, username, groups)
  {
    if s.kind == SERVICE_ACCOUNT {
      AccountHits(s, bindingNamespace, username, groups);
    } else {
      KeysHit(s, username, groups);
    }
  }

  // ---------- The subjects it gets wrong ----------

  /** The requester is answered and unambiguous, and the index disagrees with Kubernetes about the subject. */
  ghost predicate Misread(s: Subject, bindingNamespace: string, username: string, groups: seq<string>) {
    && SubjectKeys(username, groups).Ok? && Unambiguous(username)
    && (IndexValue(s) in SubjectKeys(username, groups).value) != Applies(s, bindingNamespace, username, groups)
  }

  lemma MisreadUser(s: Subject, bindingNamespace: string) returns (username: string)
    requires s.kind == USER && !Decoded(s, bindingNamespace)
    ensures Misread(s, bindingNamespace, username, [])
  {
    username := if IsRequester(s.name) && Unambiguous(s.name) then s.name else Rest(s);
    KeysHit(s, username, []);
    assert s.namespace != "" ==> |Rest(s)| > |s.name|;
  }

  lemma MisreadGroup(s: Subject, bindingNamespace: string)
    requires s.kind == GROUP && !Decoded(s, bindingNamespace)
    ensures Misread(s, bindingNamespace, "", [s.name])
  {
    KeysHit(s, "", [s.name]);
    assert |Rest(s)| > |s.name|;
  }

  lemma MisreadAccount(s: Subject, bindingNamespace: string) returns (username: string)
    requires s.kind == SERVICE_ACCOUNT && !Decoded(s, bindingNamespace)
    ensures Misread(s, bindingNamespace, username, [])
  {
    var text := Rest(s);
    var (namespace, name, found) := Cut(text, '-');
    if ReadsAsAccount(text) {
      SplitOfMadeUsername(namespace, name);
      username := MakeUsername(namespace, name);
      assert AccountText(username) == text;
      assert s.namespace == "" ==> |name| < |s.name|;
    } else {
      SplitOfMadeUsername(bindingNamespace, s.name);
      username := MakeUsername(bindingNamespace, s.name);
      assert |AccountText(username)| > |s.name|;
    }
    KeysHit(s, username, []);
    AccountApplies(s, bindingNamespace, username, []);
  }

  /** Every subject that is not decoded is misread for some unambiguous requester. */
  lemma UndecodedIsMisread(s: Subject, bindingNamespace: string) returns (username: string, groups: seq<string>)
    requires KnownKind(s) && !Decoded(s, bindingNamespace)
    ensures Misread(s, bindingNamespace, username, groups)
  {
    groups := [];
    if s.kind == USER {
      username := MisreadUser(s, bindingNamespace);
    } else if s.kind == GROUP {
      MisreadGroup(s, bindingNamespace);
      username, groups := "", [s.name];
    } else {
      username := MisreadAccount(s, bindingNamespace);
    }
  }

  /** The index gets a subject right for all unambiguous requesters exactly when it is decoded. */
  lemma ExactIffDecoded(s: Subject, bindingNamespace: string)
    requires KnownKind(s)
    ensures IsExact(s, bindingNamespace) <==> Decoded(s, bindingNamespace)
  {
    if Decoded(s, bindingNamespace) {
      forall username, groups | SubjectKeys(username, groups).Ok? && Unambiguous(username)
        ensures IndexValue(s) in SubjectKeys(username, groups).value <==> Applies(s, bindingNamespace, username, groups)
      {
        SubjectHits(s, bindingNamespace, username, groups);
      }
    } else {
      var username, groups := UndecodedIsMisread(s, bindingNamespace);
    }
  }

  // ---------- The whole lookup ----------

  ghost predicate KnownKinds(stores: Stores) {
    forall b, i :: b in stores.bindings && 0 <= i < |b.subjects| ==> KnownKind(b.subjects[i])
  }

  /** Every subject of every binding is one the index gets right. */
  ghost predicate DecodedStores(stores: Stores) {
    forall b, i :: b in stores.bindings && 0 <= i < |b.subjects| ==> Decoded(b.subjects[i], b.namespace)
  }

  /** The index gets every subject of every binding right for this requester. */
  ghost predicate ReadRightly(stores: Stores, username: string, groups: seq<string>)
    requires SubjectKeys(username, groups).Ok?
  {
    forall b, i :: b in stores.bindings && 0 <= i < |b.subjects| ==>
      (IndexValue(b.subjects[i]) in SubjectKeys(username, groups).value <==> Applies(b.subjects[i], b.namespace, username, groups))
  }

  lemma BindingHits(stores: Stores, b: RoleBinding, username: string, groups: seq<string>)
    requires SubjectKeys(username, groups).Ok? && ReadRightly(stores, username, groups) && b in stores.bindings
    ensures b in BindingsUnder(stores, ReflectionSubjectIndex, SubjectKeys(username, groups).value) <==>
      Labelled(b) && BindingApplies(b, username, groups)
  {
    var keys := SubjectKeys(username, groups).value;
    if Reflected(b) && BindingApplies(b, username, groups) {
      var i :| 0 <= i < |b.subjects| && Applies(b.subjects[i], b.namespace, username, groups);
      var k :| 0 <= k < |keys| && keys[k] == IndexValue(b.subjects[i]);
      assert Indexed(b, ReflectionSubjectIndex, keys[k]);
    }
  }

  /** The lookup and the scan find the same namespaces. */
  ghost predicate Agree(stores: Stores, q: Question) {
    ReflectedNamespaces(stores, q) == Ok(ScannedNamespaces(stores, q))
  }

  /** They do whenever no subject is misread for the requester. */
  lemma LookupRefinesScan(stores: Stores, q: Question)
    requires SubjectKeys(q.username, q.groups).Ok? && ReadRightly(stores, q.username, q.groups)
    ensures Agree(stores, q)
  {
    var found := BindingsUnder(stores, ReflectionSubjectIndex, SubjectKeys(q.username, q.groups).value);
    forall b | b in stores.bindings
      ensures b in found <==> Labelled(b) && BindingApplies(b, q.username, q.groups)
      ensures Grants(stores, b, q) <==> Admits(stores, b, q)
    {
      BindingHits(stores, b, q.username, q.groups);
      GrantsIff(stores, b, q);
    }
    var granted, scanned := GrantedNamespaces(stores, found, q), ScannedNamespaces(stores, q);
    forall n | n in granted ensures n in scanned {
      var b :| b in found && Grants(stores, b, q) && b.namespace == n;
    }
    forall n | n in scanned ensures n in granted {
      var b :| b in stores.bindings && Labelled(b) && BindingApplies(b, q.username, q.groups)
        && Admits(stores, b, q) && b.namespace == n;
    }
    assert granted == scanned;
  }

  lemma DecodedReadRightly(stores: Stores, username: string, groups: seq<string>)
    requires KnownKinds(stores) && DecodedStores(stores)
    requires SubjectKeys(username, groups).Ok? && Unambiguous(username)
    ensures ReadRightly(stores, username, groups)
  {
    forall b, i | b in stores.bindings && 0 <= i < |b.subjects|
      ensures IndexValue(b.subjects[i]) in SubjectKeys(username, groups).value <==>
        Applies(b.subjects[i], b.namespace, username, groups)
    {
      SubjectHits(b.subjects[i], b.namespace, username, groups);
    }
  }

  /** No subject carries a namespace but service accounts, which carry one without a dash. */
  ghost predicate PlainStores(stores: Stores) {
    forall b, i :: b in stores.bindings && 0 <= i < |b.subjects| ==>
      var s := b.subjects[i];
      KnownKind(s) && if s.kind == SERVICE_ACCOUNT then s.namespace != "" && '-' !in s.namespace else s.namespace == ""
  }

  lemma PlainReadRightly(stores: Stores, username: string, groups: seq<string>)
    requires PlainStores(stores) && SubjectKeys(username, groups).Ok? && !IsServiceAccount(username)
    ensures ReadRightly(stores, username, groups)
  {
    forall b, i | b in stores.bindings && 0 <= i < |b.subjects|
      ensures IndexValue(b.subjects[i]) in SubjectKeys(username, groups).value <==>
        Applies(b.subjects[i], b.namespace, username, groups)
    {
      var s := b.subjects[i];
      KeysHit(s, username, groups);
      if s.kind == SERVICE_ACCOUNT { AccountApplies(s, b.namespace, username, groups); }
    }
  }

  // ---------- The tenants of the answer ----------

  predicate HasLabel(ns: Namespace, key: string, value: string) { (key, value) in ns.labels.Items }

  /** The namespace carries the label with some value. */
  predicate Carries(ns: Namespace, key: string) { key in ns.labels && ns.labels[key] != "" }

  /** The first owner of kind Tenant is this one. */
  predicate FirstOwnedAt(owners: seq<OwnerReference>, tenant: string, i: nat) {
    && i < |owners| && owners[i] == OwnerReference("Tenant", tenant)
    && forall j :: 0 <= j < i ==> owners[j].kind != "Tenant"
  }

  predicate FirstOwned(owners: seq<OwnerReference>, tenant: string) {
    exists i :: 0 <= i < |owners| && FirstOwnedAt(owners, tenant, i)
  }

  /** The namespace is the tenant's: by the new label, without it by the old one, without both by its first Tenant owner. */
  predicate BelongsTo(ns: Namespace, tenant: string) {
    || HasLabel(ns, "projectcapsule.dev/tenant", tenant)
    || (!Carries(ns, "projectcapsule.dev/tenant") && HasLabel(ns, "capsule.clastix.io/tenant", tenant))
    || (!Carries(ns, "projectcapsule.dev/tenant") && !Carries(ns, "capsule.clastix.io/tenant") && FirstOwned(ns.owners, tenant))
  }

  lemma {:induction false} FirstOwnerIff(owners: seq<OwnerReference>, tenant: string)
    requires tenant != ""
    ensures FirstTenantOwner(owners) == tenant <==> FirstOwned(owners, tenant)
  {
    if owners != [] {
      var rest := owners[1..];
      FirstOwnerIff(rest, tenant);
      if owners[0].kind == "Tenant" {
        assert owners[0].name == tenant ==> FirstOwnedAt(owners, tenant, 0);
      } else {
        forall i | 0 <= i < |rest| ensures FirstOwnedAt(rest, tenant, i) <==> FirstOwnedAt(owners, tenant, i + 1) {
          assert forall j :: 0 <= j < i ==> rest[j] == owners[j + 1];
          assert forall j :: 0 < j < i + 1 ==> owners[j] == rest[j - 1];
        }
        if i :| 0 <= i < |owners| && FirstOwnedAt(owners, tenant, i) {
          assert FirstOwnedAt(rest, tenant, i - 1);
        }
      }
    }
  }

  /** What the reflector takes for a namespace's tenant is the one it belongs to. */
  lemma TenantNameIff(ns: Namespace, tenant: string)
    requires tenant != ""
    ensures TenantName(ns) == tenant <==> BelongsTo(ns, tenant)
  {
    FirstOwnerIff(ns.owners, tenant);
    assert HasLabel(ns, "projectcapsule.dev/tenant", tenant) ==> Carries(ns, "projectcapsule.dev/tenant");
  }

  /** The tenant has an existing namespace with a binding that admits the question. */
  ghost predicate ScannedTenant(stores: Stores, q: Question, tenant: string) {
    tenant != "" && exists n :: n in ScannedNamespaces(stores, q) && n in stores.namespaces && BelongsTo(stores.namespaces[n], tenant)
  }

  /** The answer lists in order, each once, exactly the tenants the scan finds. */
  lemma AnswerIsScanned(stores: Stores, q: Question)
    requires SubjectKeys(q.username, q.groups).Ok? && ReadRightly(stores, q.username, q.groups)
    ensures Fresh(stores, q).Ok?
    ensures Sorted(Fresh(stores, q).value) && Distinct(Fresh(stores, q).value)
    ensures forall tenant :: tenant in Fresh(stores, q).value <==> ScannedTenant(stores, q, tenant)
  {
    LookupRefinesScan(stores, q);
    var names := ScannedNamespaces(stores, q);
    SortedListSorts(TenantsOf(stores, names));
    forall tenant ensures tenant in TenantsOf(stores, names) <==> ScannedTenant(stores, q, tenant) {
      if tenant != "" {
        forall n | n in names && n in stores.namespaces
          ensures TenantName(stores.namespaces[n]) == tenant <==> BelongsTo(stores.namespaces[n], tenant)
        {
          TenantNameIff(stores.namespaces[n], tenant);
        }
      }
    }
  }

  // ---------- The conditions are exact ----------

  /** A store with one binding of one subject, admitting everything, in the given namespace. */
  function OneSubjectStore(s: Subject, namespace: string): Stores {
    var all := PolicyRule(["*"], ["*"], ["*"], []);
    var b := RoleBinding(namespace, "b", map[REFLECTION_LABEL := "true"], RoleRef(RBAC_GROUP, "ClusterRole", "all"), [s]);
    Stores({b}, map[], map["all" := [all]], map[])
  }

  lemma OneSubjectGrants(s: Subject, namespace: string, q: Question)
    ensures forall b :: b in OneSubjectStore(s, namespace).bindings ==> Grants(OneSubjectStore(s, namespace), b, q)
  {
    var all := PolicyRule(["*"], ["*"], ["*"], []);
    assert all.verbs[0] == "*" && all.apiGroups[0] == "*" && all.resources[0] == "*";
    assert PolicyRuleAllows(all, q.verb, q.apiGroup, q.resource);
    assert [all][0] == all;
  }

  /** The lookup serves the binding to exactly those with the subject's index value among their keys. */
  lemma OneSubjectServed(s: Subject, namespace: string, q: Question)
    requires SubjectKeys(q.username, q.groups).Ok?
    ensures namespace in ReflectedNamespaces(OneSubjectStore(s, namespace), q).value <==>
      IndexValue(s) in SubjectKeys(q.username, q.groups).value
  {
    var stores, keys := OneSubjectStore(s, namespace), SubjectKeys(q.username, q.groups).value;
    var binding :| binding in stores.bindings;
    OneSubjectGrants(s, namespace, q);
    assert binding.subjects[0] == s;
    if IndexValue(s) in keys {
      var k :| 0 <= k < |keys| && keys[k] == IndexValue(s);
      assert Indexed(binding, ReflectionSubjectIndex, keys[k]);
    }
  }

  /** The scan finds it for exactly those the subject applies to. */
  lemma OneSubjectScanned(s: Subject, namespace: string, q: Question)
    ensures namespace in ScannedNamespaces(OneSubjectStore(s, namespace), q) <==> Applies(s, namespace, q.username, q.groups)
  {
    var stores := OneSubjectStore(s, namespace);
    var binding :| binding in stores.bindings;
    OneSubjectGrants(s, namespace, q);
    GrantsIff(stores, binding, q);
    ReflectedIff(binding);
    assert binding.subjects[0] == s && binding.namespace == namespace && Reflected(binding);
    if Applies(s, namespace, q.username, q.groups) {
      assert binding in stores.bindings && BindingApplies(binding, q.username, q.groups) && Admits(stores, binding, q);
    }
  }

  /** On such a store, lookup and scan agree about a requester exactly when the index gets the subject right for it. */
  lemma OneSubjectAgrees(s: Subject, namespace: string, q: Question)
    requires SubjectKeys(q.username, q.groups).Ok?
    ensures Agree(OneSubjectStore(s, namespace), q) ==>
      (IndexValue(s) in SubjectKeys(q.username, q.groups).value <==> Applies(s, namespace, q.username, q.groups))
  {
    OneSubjectServed(s, namespace, q);
    OneSubjectScanned(s, namespace, q);
  }

  /** The binding's namespace serves every unambiguous requester rightly exactly when the subject is decoded. */
  lemma SubjectExactIff(s: Subject, namespace: string)
    requires KnownKind(s) && IsDnsLabel(namespace)
    ensures (forall q: Question :: SubjectKeys(q.username, q.groups).Ok? && Unambiguous(q.username) ==>
        Agree(OneSubjectStore(s, namespace), q))
      <==> Decoded(s, namespace)
  {
    if Decoded(s, namespace) {
      forall q: Question | SubjectKeys(q.username, q.groups).Ok? && Unambiguous(q.username)
        ensures Agree(OneSubjectStore(s, namespace), q)
      {
        DecodedReadRightly(OneSubjectStore(s, namespace), q.username, q.groups);
        LookupRefinesScan(OneSubjectStore(s, namespace), q);
      }
    } else {
      var username, groups := UndecodedIsMisread(s, namespace);
      OneSubjectAgrees(s, namespace, Question(username, groups, "list", "", "pods"));
    }
  }

  /** A service account of namespace `a-b` is served the bindings of account `b-name` in namespace `a`. */
  lemma DashedNamespaceCollides(q: Question) returns (stores: Stores)
    requires IsServiceAccount(q.username) && !Unambiguous(q.username)
    ensures ValidStores(stores) && KnownKinds(stores) && DecodedStores(stores) && !Agree(stores, q)
  {
    var (namespace, name) := SplitUsername(q.username).value;
    var (a, b, _) := Cut(namespace, '-');
    assert namespace == a + ['-'] + b && '-' !in a;
    assert a != "" by { assert namespace[0] != '-'; }
    var s := Subject(SERVICE_ACCOUNT, a, b + ['-'] + name);
    stores := OneSubjectStore(s, "x");
    assert Rest(s) == AccountText(q.username);
    KeysHit(s, q.username, q.groups);
    AccountApplies(s, "x", q.username, q.groups);
    assert |a| < |namespace|;
    OneSubjectAgrees(s, "x", q);
  }

  /** A service account is not served the bindings that name it as a user, though Kubernetes lets them apply. */
  lemma AccountAsUserIsMissed(q: Question) returns (stores: Stores)
    requires IsServiceAccount(q.username)
    ensures ValidStores(stores) && PlainStores(stores) && !Agree(stores, q)
  {
    var s := Subject(USER, "", q.username);
    stores := OneSubjectStore(s, "x");
    KeysHit(s, q.username, q.groups);
    OneSubjectAgrees(s, "x", q);
  }

  /**
   * The lookup agrees with the scan on all decoded stores exactly for the unambiguous requesters, and on all
   * plain stores exactly for those that are not service accounts.
   */
  lemma LookupExactIff(q: Question)
    requires SubjectKeys(q.username, q.groups).Ok?
    ensures (forall stores :: ValidStores(stores) && KnownKinds(stores) && DecodedStores(stores) ==> Agree(stores, q))
      <==> Unambiguous(q.username)
    ensures (forall stores :: ValidStores(stores) && PlainStores(stores) ==> Agree(stores, q))
      <==> !IsServiceAccount(q.username)
  {
    if Unambiguous(q.username) {
      forall stores | KnownKinds(stores) && DecodedStores(stores) ensures Agree(stores, q) {
        DecodedReadRightly(stores, q.username, q.groups);
        LookupRefinesScan(stores, q);
      }
    } else {
      var _ := DashedNamespaceCollides(q);
    }
    if IsServiceAccount(q.username) {
      var _ := AccountAsUserIsMissed(q);
    } else {
      forall stores | PlainStores(stores) ensures Agree(stores, q) {
        PlainReadRightly(stores, q.username, q.groups);
        LookupRefinesScan(stores, q);
      }
    }
  }

  // ---------- Subjects of each form that go wrong ----------

  lemma WordIsDns(s: string)
    requires 0 < |s| <= 63 && forall i :: 0 <= i < |s| ==> IsLowerAlphanumeric(s[i])
    ensures IsDnsLabel(s) && IsDnsSubdomain(s)
  {
    assert '.' !in s;
    SplitHead(s, [], '.');
  }

  /** Account `c` of namespace `a-b`: its bindings go to account `b-c` of namespace `a`. */
  lemma {:induction false} DashedSubjectIsMisread()
    ensures var s := Subject(SERVICE_ACCOUNT, "a-b", "c"); KnownKind(s) && !Decoded(s, "x")
    ensures Misread(Subject(SERVICE_ACCOUNT, "a-b", "c"), "x", MakeUsername("a", "b-c"), [])
  {
    var s := Subject(SERVICE_ACCOUNT, "a-b", "c");
    WordIsDns("a");
    assert '.' !in "b-c";
    SplitHead("b-c", [], '.');
    assert IsDnsSubdomain("b-c") by { assert Split("b-c", '.') == ["b-c"]; }
    assert Rest(s) == "a" + ['-'] + "b-c";
    CutsAt("a", "b-c");
    SplitOfMadeUsername("a", "b-c");
    KeysHit(s, MakeUsername("a", "b-c"), []);
    AccountApplies(s, "x", MakeUsername("a", "b-c"), []);
  }

  lemma {:induction false} CutsAt(head: string, tail: string)
    requires '-' !in head
    ensures Cut(head + ['-'] + tail, '-') == (head, tail, true)
  {
    var text := head + ['-'] + tail;
    var (a, b, _) := Cut(text, '-');
    assert text[|head|] == '-';
    EqualHeads(a, b, head, tail, '-');
  }

  /** Account `n` with its namespace left to the binding in `x`: Kubernetes applies it to `x:n`, the index never does. */
  lemma DefaultedNamespaceIsMissed()
    ensures var s := Subject(SERVICE_ACCOUNT, "", "n"); KnownKind(s) && !Decoded(s, "x")
    ensures Misread(Subject(SERVICE_ACCOUNT, "", "n"), "x", MakeUsername("x", "n"), [])
  {
    var s := Subject(SERVICE_ACCOUNT, "", "n");
    WordIsDns("x");
    WordIsDns("n");
    SplitOfMadeUsername("x", "n");
    assert |AccountText(MakeUsername("x", "n"))| == 3;
    KeysHit(s, MakeUsername("x", "n"), []);
    AccountApplies(s, "x", MakeUsername("x", "n"), []);
  }

  /** User `alice` with a namespace Kubernetes ignores: the index never finds the binding for her. */
  lemma NamespacedUserIsMissed()
    ensures var s := Subject(USER, "ns", "alice"); KnownKind(s) && !Decoded(s, "x")
    ensures Misread(Subject(USER, "ns", "alice"), "x", "alice", [])
  {
    var s := Subject(USER, "ns", "alice");
    assert "alice"[0] != SERVICE_ACCOUNT_PREFIX[0];
    assert Rest(s)[0] == 'n';
    KeysHit(s, "alice", []);
  }
}
