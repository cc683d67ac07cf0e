/** Which questions have the same answer in every state of the stores, and which of them share a cache key. */
module KeyCollisions {
  import opened Kubernetes
  import opened Ordering
  import opened RbacScan
  import opened ReflectionKey
  import opened RoleBindings
  import opened Text
  import opened Wrappers

  // ---------- Questions with the same answer ----------

  /** Both are refused, or both are looked up under the same keys for the same permission. */
  predicate SameQuestion(p: Question, q: Question) {
    match (SubjectKeys(p.username, p.groups), SubjectKeys(q.username, q.groups))
    case (Err(_), Err(_)) => true
    case (Ok(k), Ok(l)) => Elements(k) == Elements(l) && p.verb == q.verb && p.apiGroup == q.apiGroup && p.resource == q.resource
    case _ => false
  }

  ghost predicate SameAnswers(p: Question, q: Question) {
    forall stores :: ValidStores(stores) ==> Fresh(stores, p) == Fresh(stores, q)
  }

  lemma SamePermissionGrants(stores: Stores, bindings: set<RoleBinding>, p: Question, q: Question)
    requires p.verb == q.verb && p.apiGroup == q.apiGroup && p.resource == q.resource
    ensures GrantedNamespaces(stores, bindings, p) == GrantedNamespaces(stores, bindings, q)
  {
    forall b | b in bindings ensures Grants(stores, b, p) == Grants(stores, b, q) {}
  }

  lemma SameQuestionAnswers(stores: Stores, p: Question, q: Question)
    requires SameQuestion(p, q)
    ensures Fresh(stores, p) == Fresh(stores, q)
  {
    var k, l := SubjectKeys(p.username, p.groups), SubjectKeys(q.username, q.groups);
    if k.Ok? {
      forall x ensures x in k.value <==> x in l.value {
        assert x in Elements(k.value) <==> x in Elements(l.value);
      }
      BindingsByKeySet(stores, ReflectionSubjectIndex, k.value, l.value);
      SamePermissionGrants(stores, BindingsUnder(stores, ReflectionSubjectIndex, k.value), p, q);
    }
  }

  // ---------- Stores that tell two questions apart ----------

  /** One reflected binding of one subject to a role with one rule, in a namespace of tenant `t`. */
  function Witness(s: Subject, rule: PolicyRule): Stores {
    var b := RoleBinding("x", "b", map[REFLECTION_LABEL := "true"], RoleRef(RBAC_GROUP, "ClusterRole", "r"), [s]);
    Stores({b}, map[], map["r" := [rule]], map["x" := Namespace(map[NEW_TENANT_LABEL := "t"], [])])
  }

  lemma WitnessIsValid(s: Subject, rule: PolicyRule)
    ensures ValidStores(Witness(s, rule))
  {
  }

  predicate Permits(rule: PolicyRule, q: Question) { PolicyRuleAllows(rule, q.verb, q.apiGroup, q.resource) }

  lemma WitnessBindings(s: Subject, rule: PolicyRule, keys: seq<string>)
    ensures BindingsUnder(Witness(s, rule), ReflectionSubjectIndex, keys) ==
      if IndexValue(s) in keys then Witness(s, rule).bindings else {}
  {
    var stores := Witness(s, rule);
    forall b | b in stores.bindings
      ensures b in BindingsUnder(stores, ReflectionSubjectIndex, keys) <==> IndexValue(s) in keys
    {
      assert b.subjects == [s] && b.subjects[0] == s;
      if IndexValue(s) in keys {
        var k :| 0 <= k < |keys| && keys[k] == IndexValue(s);
        assert Indexed(b, ReflectionSubjectIndex, keys[k]);
      }
    }
  }

  lemma WitnessGrants(s: Subject, rule: PolicyRule, q: Question)
    ensures GrantedNamespaces(Witness(s, rule), Witness(s, rule).bindings, q) == if Permits(rule, q) then {"x"} else {}
  {
    assert [rule][0] == rule;
    var stores := Witness(s, rule);
    forall b | b in stores.bindings ensures Grants(stores, b, q) <==> Permits(rule, q) {}
    var b :| b in stores.bindings;
    assert b.namespace == "x";
    assert Permits(rule, q) ==> "x" in GrantedNamespaces(stores, stores.bindings, q);
  }

  lemma WitnessNamespaces(s: Subject, rule: PolicyRule, q: Question)
    requires SubjectKeys(q.username, q.groups).Ok?
    ensures ReflectedNamespaces(Witness(s, rule), q) ==
      Ok(if IndexValue(s) in SubjectKeys(q.username, q.groups).value && Permits(rule, q) then {"x"} else {})
  {
    WitnessBindings(s, rule, SubjectKeys(q.username, q.groups).value);
    WitnessGrants(s, rule, q);
    assert GrantedNamespaces(Witness(s, rule), {}, q) == {};
  }

  lemma WitnessTenants(s: Subject, rule: PolicyRule)
    ensures "t" in TenantsOf(Witness(s, rule), {"x"})
    ensures TenantsOf(Witness(s, rule), {}) == {}
  {
    assert TenantName(Witness(s, rule).namespaces["x"]) == "t";
  }

  /** The question is answered with the tenant iff the subject's index value is a key of its and the rule permits it. */
  lemma WitnessAnswers(s: Subject, rule: PolicyRule, q: Question)
    requires SubjectKeys(q.username, q.groups).Ok?
    ensures Fresh(Witness(s, rule), q).Ok?
    ensures "t" in Fresh(Witness(s, rule), q).value <==>
      IndexValue(s) in SubjectKeys(q.username, q.groups).value && Permits(rule, q)
  {
    WitnessNamespaces(s, rule, q);
    WitnessTenants(s, rule);
  }

  const ANYTHING := PolicyRule(["*"], ["*"], ["*"], [])

  lemma AnythingPermits(q: Question)
    ensures Permits(ANYTHING, q)
  {
    assert ANYTHING.verbs[0] == "*" && ANYTHING.apiGroups[0] == "*" && ANYTHING.resources[0] == "*";
  }

  /** Every key is the index value of some subject. */
  lemma KeyOfSubject(username: string, groups: seq<string>, key: string) returns (s: Subject)
    requires SubjectKeys(username, groups).Ok? && key in SubjectKeys(username, groups).value
    ensures IndexValue(s) == key
  {
    KeysShape(username, groups);
    if key in GroupKeys(groups) {
      var i :| 0 <= i < |groups| && GroupKeys(groups)[i] == key;
      s := Subject(GROUP, "", groups[i]);
    } else if IsServiceAccount(username) {
      s := Subject(SERVICE_ACCOUNT, "", AccountText(username));
      assert key == SERVICE_ACCOUNT + ['-'] + AccountText(username);
    } else {
      s := Subject(USER, "", username);
    }
    IndexValueIs(s);
  }

  /** A key of the one question that is none of the other's: its binding is served to the one only. */
  lemma KeyTellsApart(p: Question, q: Question, key: string) returns (stores: Stores)
    requires SubjectKeys(p.username, p.groups).Ok? && SubjectKeys(q.username, q.groups).Ok?
    requires key in SubjectKeys(p.username, p.groups).value && key !in SubjectKeys(q.username, q.groups).value
    ensures ValidStores(stores) && Fresh(stores, p) != Fresh(stores, q)
  {
    var s := KeyOfSubject(p.username, p.groups, key);
    stores := Witness(s, ANYTHING);
    WitnessIsValid(s, ANYTHING);
    AnythingPermits(p);
    WitnessAnswers(s, ANYTHING, p);
    WitnessAnswers(s, ANYTHING, q);
  }

  lemma OnlyValue(value: string, requested: string)
    ensures MatchesRbacValue([value], requested) <==> value == "*" || value == requested
  {
    assert [value][0] == value;
  }

  /** Two different requested values: a value that admits one of them and not the other. */
  function Telling(a: string, b: string): string { if a != "*" then a else b }

  /** A rule that permits one of two questions about different permissions. */
  lemma RuleTellsApart(p: Question, q: Question) returns (rule: PolicyRule)
    requires p.verb != q.verb || p.apiGroup != q.apiGroup || p.resource != q.resource
    ensures Permits(rule, p) != Permits(rule, q)
  {
    OnlyValue("*", p.verb);
    OnlyValue("*", q.verb);
    OnlyValue("*", p.apiGroup);
    OnlyValue("*", q.apiGroup);
    OnlyValue("*", p.resource);
    OnlyValue("*", q.resource);
    if p.verb != q.verb {
      rule := PolicyRule([Telling(p.verb, q.verb)], ["*"], ["*"], []);
      OnlyValue(Telling(p.verb, q.verb), p.verb);
      OnlyValue(Telling(p.verb, q.verb), q.verb);
    } else if p.apiGroup != q.apiGroup {
      rule := PolicyRule(["*"], [Telling(p.apiGroup, q.apiGroup)], ["*"], []);
      OnlyValue(Telling(p.apiGroup, q.apiGroup), p.apiGroup);
      OnlyValue(Telling(p.apiGroup, q.apiGroup), q.apiGroup);
    } else {
      rule := PolicyRule(["*"], ["*"], [Telling(p.resource, q.resource)], []);
      OnlyValue(Telling(p.resource, q.resource), p.resource);
      OnlyValue(Telling(p.resource, q.resource), q.resource);
    }
  }

  lemma {:induction false} PermissionTellsApart(p: Question, q: Question) returns (stores: Stores)
    requires SubjectKeys(p.username, p.groups).Ok? && SubjectKeys(q.username, q.groups).Ok?
    requires Elements(SubjectKeys(p.username, p.groups).value) == Elements(SubjectKeys(q.username, q.groups).value)
    requires p.verb != q.verb || p.apiGroup != q.apiGroup || p.resource != q.resource
    ensures ValidStores(stores) && Fresh(stores, p) != Fresh(stores, q)
  {
    var key := SubjectKeys(p.username, p.groups).value[0];
    assert key in Elements(SubjectKeys(p.username, p.groups).value);
    var s := KeyOfSubject(p.username, p.groups, key);
    var rule := RuleTellsApart(p, q);
    stores := Witness(s, rule);
    WitnessIsValid(s, rule);
    WitnessAnswers(s, rule, p);
    WitnessAnswers(s, rule, q);
  }

  /** Two different questions are told apart by some stores. */
  lemma StoresTellApart(p: Question, q: Question) returns (stores: Stores)
    requires !SameQuestion(p, q)
    ensures ValidStores(stores) && Fresh(stores, p) != Fresh(stores, q)
  {
    var k, l := SubjectKeys(p.username, p.groups), SubjectKeys(q.username, q.groups);
    if k.Err? || l.Err? {
      stores := Stores({}, map[], map[], map[]);
    } else if key :| key in k.value && key !in l.value {
      stores := KeyTellsApart(p, q, key);
    } else if key :| key in l.value && key !in k.value {
      stores := KeyTellsApart(q, p, key);
    } else {
      assert Elements(k.value) == Elements(l.value);
      stores := PermissionTellsApart(p, q);
    }
  }

  /** Two questions have the same answer in every state of the stores exactly when they are the same question. */
  lemma SameAnswersIff(p: Question, q: Question)
    ensures SameAnswers(p, q) <==> SameQuestion(p, q)
  {
    if SameQuestion(p, q) {
      forall stores ensures Fresh(stores, p) == Fresh(stores, q) {
        SameQuestionAnswers(stores, p, q);
      }
    } else {
      var _ := StoresTellApart(p, q);
    }
  }

  // ---------- Questions with the same key ----------

  lemma GroupKeyIn(username: string, groups: seq<string>, group: string)
    requires SubjectKeys(username, groups).Ok?
    ensures GROUP + ['-'] + group in SubjectKeys(username, groups).value <==> group in groups
  {
    var s := Subject(GROUP, "", group);
    IndexValueIs(s);
    KeysHit(s, username, groups);
  }

  /** A question with the key of a clean one makes the same request, if not for the same groups. */
  lemma SharedRequest(p: Question, q: Question)
    requires Clean(q) && ResultKey(p) == ResultKey(q)
    ensures SameRequest(p, q)
  {
    RequestDecodedIff(q);
  }

  lemma SameGroupsSameQuestion(p: Question, q: Question)
    requires SameRequest(p, q) && forall g :: g in p.groups <==> g in q.groups
    ensures SameQuestion(p, q)
  {
    var k, l := SubjectKeys(p.username, p.groups), SubjectKeys(q.username, q.groups);
    if k.Ok? {
      KeysShape(p.username, p.groups);
      KeysShape(q.username, q.groups);
      forall x ensures x in k.value <==> x in l.value {
        if x in GroupKeys(p.groups) { GroupKeysBySet(p.groups, q.groups, x); }
        if x in GroupKeys(q.groups) { GroupKeysBySet(q.groups, p.groups, x); }
      }
    }
  }

  lemma OtherGroupOtherQuestion(p: Question, q: Question, g: string)
    requires SubjectKeys(p.username, p.groups).Ok? && SubjectKeys(q.username, q.groups).Ok?
    requires g in p.groups && g !in q.groups
    ensures !SameQuestion(p, q)
  {
    GroupKeyIn(p.username, p.groups, g);
    GroupKeyIn(q.username, q.groups, g);
    assert GROUP + ['-'] + g in Elements(SubjectKeys(p.username, p.groups).value);
    assert GROUP + ['-'] + g !in Elements(SubjectKeys(q.username, q.groups).value);
  }

  lemma UnnamedGroup(p: Question) returns (g: string)
    requires !NamedGroups(p)
    ensures g in p.groups && (g == "" || GROUP_SEPARATOR in g)
  {
    g :| g in p.groups && (g == "" || GROUP_SEPARATOR in g);
  }

  /** A question with the key of a clean one is the same question exactly when its groups are named, or both are refused. */
  lemma SharedKeyIff(p: Question, q: Question)
    requires Clean(q) && ResultKey(p) == ResultKey(q)
    ensures SameQuestion(p, q) <==> NamedGroups(p) || SubjectKeys(q.username, q.groups).Err?
  {
    SharedRequest(p, q);
    if NamedGroups(p) {
      EqualKeysEqualGroups(p, q);
      SameGroupsSameQuestion(p, q);
    } else if SubjectKeys(q.username, q.groups).Ok? {
      var g := UnnamedGroup(p);
      OtherGroupOtherQuestion(p, q, g);
    }
  }

  /** So such questions have equal answers in every state of the stores exactly then. */
  lemma SharedAnswersIff(p: Question, q: Question)
    requires Clean(q) && ResultKey(p) == ResultKey(q)
    ensures SameAnswers(p, q) <==> NamedGroups(p) || SubjectKeys(q.username, q.groups).Err?
  {
    SameAnswersIff(p, q);
    SharedKeyIff(p, q);
  }

  /** No group and the group with the empty name share a key, and some stores answer them differently. */
  lemma EmptyGroupCollides(username: string, verb: string, apiGroup: string, resource: string) returns (stores: Stores)
    requires FieldsFree(Question(username, [], verb, apiGroup, resource)) && SubjectKeys(username, []).Ok?
    ensures var p, q := Question(username, [""], verb, apiGroup, resource), Question(username, [], verb, apiGroup, resource);
      ValidStores(stores) && ResultKey(p) == ResultKey(q) && Fresh(stores, p) != Fresh(stores, q)
  {
    var p, q := Question(username, [""], verb, apiGroup, resource), Question(username, [], verb, apiGroup, resource);
    KeysEqualIff(p, q);
    assert "" in p.groups;
    SharedKeyIff(p, q);
    stores := StoresTellApart(p, q);
  }
}
