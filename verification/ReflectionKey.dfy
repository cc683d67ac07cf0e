/** The string key reflection results are cached under, and which questions share one. */
module ReflectionKey {
  import opened Kubernetes
  import opened Ordering
  import opened RoleBindings
  import opened Text
  import opened Wrappers

  const GROUP_SEPARATOR: char := '\U{0000}'
  const FIELD_SEPARATOR: char := '\U{0001}'

  function KeyFields(q: Question): seq<string> {
    [q.username, Join(SortStrings(q.groups), GROUP_SEPARATOR), q.verb, q.apiGroup, q.resource]
  }

  function ResultKey(q: Question): string { Join(KeyFields(q), FIELD_SEPARATOR) }

  /** No part of the question contains the separator between fields. */
  predicate FieldsFree(q: Question) {
    FreeOf([q.username, q.verb, q.apiGroup, q.resource], FIELD_SEPARATOR) && FreeOf(q.groups, FIELD_SEPARATOR)
  }

  /** No group contains the separator between groups. */
  predicate GroupsFree(q: Question) { FreeOf(q.groups, GROUP_SEPARATOR) }

  /** Nor is any group without a name. */
  predicate NamedGroups(q: Question) { GroupsFree(q) && "" !in q.groups }

  /** A question as Kubernetes identities produce it. */
  predicate Clean(q: Question) { FieldsFree(q) && NamedGroups(q) }

  /** The same request but for the groups. */
  predicate SameRequest(p: Question, q: Question) {
    p.username == q.username && p.verb == q.verb && p.apiGroup == q.apiGroup && p.resource == q.resource
  }

  lemma SortedFree(groups: seq<string>, sep: char)
    requires FreeOf(groups, sep)
    ensures FreeOf(SortStrings(groups), sep)
  {
    var sorted := SortStrings(groups);
    forall i | 0 <= i < |sorted| ensures sep !in sorted[i] {
      assert sorted[i] in multiset(sorted);
      assert sorted[i] in groups;
    }
  }

  lemma SortedMembers(groups: seq<string>, g: string)
    ensures g in SortStrings(groups) <==> g in groups
  {
    assert g in multiset(SortStrings(groups)) <==> g in multiset(groups);
  }

  lemma KeyFieldsFree(q: Question)
    ensures FreeOf(KeyFields(q), FIELD_SEPARATOR) <==> FieldsFree(q)
  {
    var basic, fields, sorted := [q.username, q.verb, q.apiGroup, q.resource], KeyFields(q), SortStrings(q.groups);
    assert FreeOf(basic, FIELD_SEPARATOR) <==>
      FIELD_SEPARATOR !in q.username && FIELD_SEPARATOR !in q.verb && FIELD_SEPARATOR !in q.apiGroup && FIELD_SEPARATOR !in q.resource
    by { assert basic[0] == q.username && basic[1] == q.verb && basic[2] == q.apiGroup && basic[3] == q.resource; }
    JoinChars(sorted, GROUP_SEPARATOR, FIELD_SEPARATOR);
    assert FreeOf(q.groups, FIELD_SEPARATOR) <==> FIELD_SEPARATOR !in fields[1] by {
      if i :| 0 <= i < |q.groups| && FIELD_SEPARATOR in q.groups[i] { SortedMembers(q.groups, q.groups[i]); }
      if i :| 0 <= i < |sorted| && FIELD_SEPARATOR in sorted[i] { SortedMembers(q.groups, sorted[i]); }
    }
    assert fields[0] == q.username && fields[2] == q.verb && fields[3] == q.apiGroup && fields[4] == q.resource;
  }

  /** A question that shares the key of one free of field separators is free of them too. */
  lemma FreeKey(p: Question, q: Question)
    requires FieldsFree(q) && ResultKey(p) == ResultKey(q)
    ensures FieldsFree(p) && KeyFields(p) == KeyFields(q)
  {
    KeyFieldsFree(p);
    KeyFieldsFree(q);
    SplitOfJoinSize(KeyFields(p), FIELD_SEPARATOR);
    SplitOfJoinSize(KeyFields(q), FIELD_SEPARATOR);
    JoinInjective(KeyFields(p), KeyFields(q), FIELD_SEPARATOR);
  }

  lemma SortedSize(groups: seq<string>)
    ensures |SortStrings(groups)| == |groups|
  {
    assert |multiset(SortStrings(groups))| == |multiset(groups)|;
  }

  lemma {:induction false} SortedEqualIff(g: seq<string>, h: seq<string>)
    ensures SortStrings(g) == SortStrings(h) <==> multiset(g) == multiset(h)
  {
    if multiset(g) == multiset(h) {
      SortStringsSorts(g);
      SortStringsSorts(h);
      SortedUnique(SortStrings(g), SortStrings(h));
    }
  }

  /** The joined texts of two free lists agree iff the lists do, up to the one blank. */
  lemma JoinedEqualIff(a: seq<string>, b: seq<string>)
    requires FreeOf(a, GROUP_SEPARATOR) && FreeOf(b, GROUP_SEPARATOR)
    ensures Join(a, GROUP_SEPARATOR) == Join(b, GROUP_SEPARATOR) <==>
      a == b || (a == [] && b == [""]) || (a == [""] && b == [])
  {
    if a == [] || b == [] {
      OnlyBlankJoinsEmpty(a, b);
    } else if Join(a, GROUP_SEPARATOR) == Join(b, GROUP_SEPARATOR) {
      JoinInjective(a, b, GROUP_SEPARATOR);
    }
  }

  lemma SortedBlank(g: seq<string>)
    ensures SortStrings(g) == [] <==> g == []
    ensures SortStrings(g) == [""] <==> g == [""]
  {
    SortedSize(g);
    if |g| == 1 { SortedSingle(g); }
  }

  lemma {:induction false} GroupFieldEqual(g: seq<string>, h: seq<string>)
    requires FreeOf(g, GROUP_SEPARATOR) && FreeOf(h, GROUP_SEPARATOR)
    ensures Join(SortStrings(g), GROUP_SEPARATOR) == Join(SortStrings(h), GROUP_SEPARATOR) <==>
      multiset(g) == multiset(h) || (g == [] && h == [""]) || (g == [""] && h == [])
  {
    SortedFree(g, GROUP_SEPARATOR);
    SortedFree(h, GROUP_SEPARATOR);
    JoinedEqualIff(SortStrings(g), SortStrings(h));
    SortedEqualIff(g, h);
    SortedBlank(g);
    SortedBlank(h);
  }

  lemma SortedSingle(g: seq<string>)
    requires |g| <= 1
    ensures SortStrings(g) == g
  {
    if |g| == 1 { assert SortStrings(g[1..]) == []; }
  }

  /** An empty list and a list of one empty text are the two that join to the empty text. */
  lemma OnlyBlankJoinsEmpty(a: seq<string>, b: seq<string>)
    requires a == [] || b == []
    ensures Join(a, GROUP_SEPARATOR) == Join(b, GROUP_SEPARATOR) <==> (a == [] || a == [""]) && (b == [] || b == [""])
  {
  }

  /**
   * When one question has no field separator and neither has a group separator in a group, they share a key
   * exactly when they agree on everything but the order of the groups, or when one has no group and the other
   * a single group with the empty name.
   */
  lemma KeysEqualIff(p: Question, q: Question)
    requires FieldsFree(q) && GroupsFree(p) && GroupsFree(q)
    ensures ResultKey(p) == ResultKey(q) <==>
      SameRequest(p, q) && (multiset(p.groups) == multiset(q.groups)
        || (p.groups == [] && q.groups == [""]) || (p.groups == [""] && q.groups == []))
  {
    GroupFieldEqual(p.groups, q.groups);
    if ResultKey(p) == ResultKey(q) {
      FreeKey(p, q);
      assert forall i :: 0 <= i < 5 ==> KeyFields(p)[i] == KeyFields(q)[i];
    }
  }

  /** A question with one group, from its fields. */
  function OneGroup(username: string, group: string, verb: string, apiGroup: string, resource: string): (q: Question) {
    Question(username, [group], verb, apiGroup, resource)
  }

  lemma OneGroupFields(username: string, group: string, verb: string, apiGroup: string, resource: string)
    ensures KeyFields(OneGroup(username, group, verb, apiGroup, resource)) == [username, group, verb, apiGroup, resource]
  {
    SortedSingle([group]);
  }

  /** A text of six or more fields is the key of two questions with different usernames. */
  lemma TwoReadings(t: seq<string>) returns (p: Question, q: Question)
    requires |t| >= 6
    ensures ResultKey(p) == ResultKey(q) == Join(t, FIELD_SEPARATOR) && p.username != q.username
  {
    var head := t[0] + [FIELD_SEPARATOR] + t[1];
    p := OneGroup(t[0], t[1], t[2], t[3], Join(t[4..], FIELD_SEPARATOR));
    q := OneGroup(head, t[2], t[3], t[4], Join(t[5..], FIELD_SEPARATOR));
    OneGroupFields(t[0], t[1], t[2], t[3], Join(t[4..], FIELD_SEPARATOR));
    OneGroupFields(head, t[2], t[3], t[4], Join(t[5..], FIELD_SEPARATOR));
    JoinTail(t[..4], t[4..], FIELD_SEPARATOR);
    assert t[..4] + t[4..] == t;
    assert KeyFields(p) == t[..4] + [Join(t[4..], FIELD_SEPARATOR)];
    var middle := [t[2], t[3], t[4], Join(t[5..], FIELD_SEPARATOR)];
    JoinHead(t[0], t[1], middle, FIELD_SEPARATOR);
    JoinTail(t[..5], t[5..], FIELD_SEPARATOR);
    assert t[..5] + t[5..] == t;
    assert KeyFields(q) == [head] + middle;
    assert [t[0], t[1]] + middle == t[..5] + [Join(t[5..], FIELD_SEPARATOR)];
  }

  /** A key identifies the request but for the groups exactly when it comes from fields without the separator. */
  lemma RequestDecodedIff(q: Question)
    ensures (forall p :: ResultKey(p) == ResultKey(q) ==> SameRequest(p, q)) <==> FieldsFree(q)
  {
    if FieldsFree(q) {
      forall p | ResultKey(p) == ResultKey(q) ensures SameRequest(p, q) {
        FreeKey(p, q);
        assert forall i :: 0 <= i < 5 ==> KeyFields(p)[i] == KeyFields(q)[i];
      }
    } else {
      KeyFieldsFree(q);
      SplitOfJoinSize(KeyFields(q), FIELD_SEPARATOR);
      JoinOfSplit(ResultKey(q), FIELD_SEPARATOR);
      var p, p' := TwoReadings(Split(ResultKey(q), FIELD_SEPARATOR));
      assert !(SameRequest(p, q) && SameRequest(p', q));
    }
  }

  // ---------- Equal keys, equal answers ----------

  lemma GroupKeysBySet(g: seq<string>, h: seq<string>, key: string)
    requires (forall x :: x in g ==> x in h) && key in GroupKeys(g)
    ensures key in GroupKeys(h)
  {
    var i :| 0 <= i < |g| && GroupKeys(g)[i] == key;
    assert g[i] in h;
    var j :| 0 <= j < |h| && h[j] == g[i];
    assert GroupKeys(h)[j] == key;
  }

  lemma BindingsByKeySet(stores: Stores, index: IndexName, k: seq<string>, l: seq<string>)
    requires forall x :: x in k <==> x in l
    ensures BindingsUnder(stores, index, k) == BindingsUnder(stores, index, l)
  {
    forall b | b in stores.bindings
      ensures (exists i :: 0 <= i < |k| && Indexed(b, index, k[i])) <==> (exists i :: 0 <= i < |l| && Indexed(b, index, l[i]))
    {
      if i :| 0 <= i < |k| && Indexed(b, index, k[i]) {
        assert k[i] in l;
        var j :| 0 <= j < |l| && l[j] == k[i];
      }
      if i :| 0 <= i < |l| && Indexed(b, index, l[i]) {
        assert l[i] in k;
        var j :| 0 <= j < |k| && k[j] == l[i];
      }
    }
  }

  /** The answer depends on the groups only as a set. */
  lemma AnswerByGroupSet(stores: Stores, p: Question, q: Question)
    requires SameRequest(p, q) && forall g :: g in p.groups <==> g in q.groups
    ensures Fresh(stores, p) == Fresh(stores, q)
  {
    var k, l := SubjectKeys(p.username, p.groups), SubjectKeys(q.username, q.groups);
    if k.Ok? {
      assert k.value == [k.value[0]] + GroupKeys(p.groups) && l.value == [l.value[0]] + GroupKeys(q.groups);
      forall x ensures x in k.value <==> x in l.value {
        if x in GroupKeys(p.groups) { GroupKeysBySet(p.groups, q.groups, x); }
        if x in GroupKeys(q.groups) { GroupKeysBySet(q.groups, p.groups, x); }
      }
      BindingsByKeySet(stores, ReflectionSubjectIndex, k.value, l.value);
      var found := BindingsUnder(stores, ReflectionSubjectIndex, k.value);
      assert GrantedNamespaces(stores, found, p) == GrantedNamespaces(stores, found, q) by {
        forall b | b in found ensures Grants(stores, b, p) == Grants(stores, b, q) {
          GrantsSame(stores, b, p, q);
        }
      }
    }
  }

  lemma GrantsSame(stores: Stores, b: RoleBinding, p: Question, q: Question)
    requires SameRequest(p, q)
    ensures Grants(stores, b, p) == Grants(stores, b, q)
  {
  }

  lemma EqualKeysEqualGroups(p: Question, q: Question)
    requires Clean(q) && NamedGroups(p) && ResultKey(p) == ResultKey(q)
    ensures SameRequest(p, q) && multiset(p.groups) == multiset(q.groups)
    ensures forall g :: g in p.groups <==> g in q.groups
  {
    KeysEqualIff(p, q);
    assert "" in [""];
    forall g ensures g in p.groups <==> g in q.groups {
      assert g in p.groups <==> g in multiset(p.groups);
    }
  }

  /**
   * A question that shares the key of a clean one, and has no group separator or empty name among its groups,
   * has the same answer in every state of the stores, whatever else it contains.
   */
  lemma EqualKeysEqualAnswers(stores: Stores, p: Question, q: Question)
    requires Clean(q) && NamedGroups(p) && ResultKey(p) == ResultKey(q)
    ensures SameRequest(p, q) && multiset(p.groups) == multiset(q.groups)
    ensures Fresh(stores, p) == Fresh(stores, q)
  {
    EqualKeysEqualGroups(p, q);
    AnswerByGroupSet(stores, p, q);
  }

  // ---------- Without the conditions ----------

  /** A field separator in a name moves text between fields: two users share a key. */
  lemma FieldSeparatorCollides(username: string, group: string, verb: string, apiGroup: string, resource: string)
    ensures var p := Question(username + [FIELD_SEPARATOR] + group, [], verb, apiGroup, resource);
      var q := Question(username, [group + [FIELD_SEPARATOR]], verb, apiGroup, resource);
      ResultKey(p) == ResultKey(q) && p.username != q.username && "" !in p.groups && "" !in q.groups
  {
    var p := Question(username + [FIELD_SEPARATOR] + group, [], verb, apiGroup, resource);
    var q := Question(username, [group + [FIELD_SEPARATOR]], verb, apiGroup, resource);
    OneGroupFields(username, group + [FIELD_SEPARATOR], verb, apiGroup, resource);
    var rest := [verb, apiGroup, resource];
    assert KeyFields(p) == [username + [FIELD_SEPARATOR] + group] + ([""] + rest);
    assert group + [FIELD_SEPARATOR] + "" == group + [FIELD_SEPARATOR];
    assert KeyFields(q) == [username] + ([group + [FIELD_SEPARATOR] + ""] + rest);
    JoinHead(username, group, [""] + rest, FIELD_SEPARATOR);
    JoinHead(group, "", rest, FIELD_SEPARATOR);
    assert [username, group] + ([""] + rest) == [username] + ([group, ""] + rest);
    assert ([username] + ([group, ""] + rest))[1..] == [group, ""] + rest;
    assert KeyFields(q)[1..] == [group + [FIELD_SEPARATOR] + ""] + rest;
  }

  /** A group separator in a name makes one group of two. */
  lemma GroupSeparatorCollides(g: string, h: string, q: Question)
    requires Leq(g, h) && q.groups == [g, h]
    ensures var p := q.(groups := [g + [GROUP_SEPARATOR] + h]);
      ResultKey(p) == ResultKey(q) && multiset(p.groups) != multiset(q.groups)
  {
    var p := q.(groups := [g + [GROUP_SEPARATOR] + h]);
    SortedSingle(p.groups);
    SortedSingle([h]);
    assert [g, h][1..] == [h];
    assert InsertSorted(g, [h]) == [g, h];
    assert Join([g, h], GROUP_SEPARATOR) == g + [GROUP_SEPARATOR] + h by { JoinFew(g, h, h, GROUP_SEPARATOR); }
    assert |multiset(p.groups)| == 1 && |multiset(q.groups)| == 2;
  }
}
