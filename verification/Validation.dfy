/** Discovery of cluster-scoped resources and validation of ClusterResource blocks against it. */
module Validation {
  import opened ClusterRules
  import opened GroupVersions
  import opened Ordering
  import opened Paths
  import opened Patterns
  import opened Text
  import opened Wrappers

  datatype ApiResource = ApiResource(name: string, namespaced: bool, kind: string, verbs: seq<string>)
  datatype ResourceList = ResourceList(groupVersion: string, resources: seq<ApiResource>)
  datatype Discovered = Discovered(apiGroup: string, resource: string, kinds: seq<string>, verbs: seq<string>)

  type Index = map<string, map<string, Discovered>>

  /** How asking the server for its resources may end besides well: some groups missing, or failure. */
  datatype DiscoveryOutcome = Complete | SomeGroupsFailed | DiscoveryFailed

  datatype DiscoveryError = NoDiscovery | BadGroupVersion(groupVersion: string)

  /** `schema.ParseGroupVersion`, as far as the group goes. */
  function ParseGroup(groupVersion: string): Option<string> {
    if groupVersion == "" || groupVersion == "/" then Some("")
    else
      var parts := Split(groupVersion, '/');
      if |parts| == 1 then Some("") else if |parts| == 2 then Some(parts[0]) else None
  }

  // ---------- Discovery ----------

  /** The values without repetitions, in order of first appearance, with the candidates added. */
  method AppendUnique(values: seq<string>, candidates: seq<string>) returns (r: seq<string>)
    requires Distinct(values)
    ensures Distinct(r) && values <= r
    ensures forall v :: v in r <==> v in values || v in candidates
  {
    r := values;
    for i := 0 to |candidates|
      invariant Distinct(r) && values <= r
      invariant forall v :: v in r <==> v in values || v in candidates[..i]
    {
      assert candidates[..i + 1] == candidates[..i] + [candidates[i]];
      if candidates[i] in r {
        continue;
      }
      r := r + [candidates[i]];
    }
    assert candidates[..|candidates|] == candidates;
  }

  /** The resource is one a list brings into the index. */
  predicate Indexable(r: ApiResource) { !r.namespaced && '/' !in r.name }

  /** The groups of the lists. */
  function ListedGroups(lists: seq<ResourceList>): set<string> {
    set l | l in lists && ParseGroup(l.groupVersion).Some? :: ParseGroup(l.groupVersion).value
  }

  /** The indexable resources of one list, under its group. */
  function ListItems(group: string, resources: seq<ApiResource>): set<(string, ApiResource)> {
    set r | r in resources && Indexable(r) :: (group, r)
  }

  /** The indexable resources of all lists, each under its group. */
  function ListedItems(lists: seq<ResourceList>): set<(string, ApiResource)> {
    set l, item | l in lists && ParseGroup(l.groupVersion).Some? && item in ListItems(ParseGroup(l.groupVersion).value, l.resources)
      :: item
  }

  /** One index entry holds the duplicate-free union of the kinds and verbs listed for it. */
  ghost predicate EntryExact(items: set<(string, ApiResource)>, group: string, name: string, d: Discovered) {
    && d.apiGroup == group && d.resource == name && Distinct(d.kinds) && Distinct(d.verbs)
    && (forall k :: k in d.kinds <==> exists r: ApiResource :: (group, r) in items && r.name == name && r.kind == k)
    && (forall v :: v in d.verbs <==> exists r: ApiResource :: (group, r) in items && r.name == name && v in r.verbs)
  }

  ghost predicate Named(items: set<(string, ApiResource)>, group: string, name: string) {
    exists r: ApiResource :: (group, r) in items && r.name == name
  }

  /** The index has exactly these groups and, under them, exactly the named resources with all they are listed with. */
  ghost predicate IndexExact(groups: set<string>, items: set<(string, ApiResource)>, index: Index) {
    && index.Keys == groups
    && (forall g, n :: g in index ==> (n in index[g] <==> Named(items, g, n)))
    && (forall g, n :: g in index && n in index[g] ==> EntryExact(items, g, n, index[g][n]))
  }

  function EntryOr(index: Index, group: string, name: string): Discovered
    requires group in index
  {
    if name in index[group] then index[group][name] else Discovered("", "", [], [])
  }

  /** An entry extended by one more listing of its resource. */
  ghost predicate Extended(before: Discovered, group: string, r: ApiResource, after: Discovered) {
    && after.apiGroup == group && after.resource == r.name
    && Distinct(after.kinds) && (forall k :: k in after.kinds <==> k in before.kinds || k == r.kind)
    && Distinct(after.verbs) && (forall v :: v in after.verbs <==> v in before.verbs || v in r.verbs)
  }

  lemma EntryStays(items: set<(string, ApiResource)>, item: (string, ApiResource), group: string, name: string, d: Discovered)
    requires EntryExact(items, group, name, d) && (group, name) != (item.0, item.1.name)
    ensures EntryExact(items + {item}, group, name, d)
  {
    forall r: ApiResource ensures r.name == name ==> ((group, r) in items + {item} <==> (group, r) in items) {}
  }

  lemma EntryGrows(items: set<(string, ApiResource)>, group: string, r: ApiResource, before: Discovered, after: Discovered)
    requires Extended(before, group, r, after)
    requires if Named(items, group, r.name) then EntryExact(items, group, r.name, before) else before.kinds == [] && before.verbs == []
    ensures EntryExact(items + {(group, r)}, group, r.name, after)
  {
    var more := items + {(group, r)};
    assert (group, r) in more;
    forall k ensures k in after.kinds <==> exists s: ApiResource :: (group, s) in more && s.name == r.name && s.kind == k {
      if s: ApiResource :| (group, s) in items && s.name == r.name && s.kind == k { assert (group, s) in more; }
    }
    forall v ensures v in after.verbs <==> exists s: ApiResource :: (group, s) in more && s.name == r.name && v in s.verbs {
      if s: ApiResource :| (group, s) in items && s.name == r.name && v in s.verbs { assert (group, s) in more; }
    }
  }

  lemma NamedGrows(items: set<(string, ApiResource)>, item: (string, ApiResource), group: string, name: string)
    ensures Named(items + {item}, group, name) <==> Named(items, group, name) || (group, name) == (item.0, item.1.name)
  {
    assert (item.0, item.1) == item && item in items + {item};
    if r: ApiResource :| (group, r) in items && r.name == name { assert (group, r) in items + {item}; }
  }

  lemma IndexGrows(groups: set<string>, items: set<(string, ApiResource)>, index: Index, group: string, r: ApiResource, after: Discovered)
    requires IndexExact(groups, items, index) && group in groups
    requires Extended(EntryOr(index, group, r.name), group, r, after)
    ensures IndexExact(groups, items + {(group, r)}, index[group := index[group][r.name := after]])
  {
    var index' := index[group := index[group][r.name := after]];
    forall g, n | g in index'
      ensures n in index'[g] <==> Named(items + {(group, r)}, g, n)
      ensures n in index'[g] ==> EntryExact(items + {(group, r)}, g, n, index'[g][n])
    {
      NamedGrows(items, (group, r), g, n);
      if g == group && n == r.name {
        EntryGrows(items, group, r, EntryOr(index, group, r.name), after);
      } else if n in index[g] {
        EntryStays(items, (group, r), g, n, index[g][n]);
      }
    }
  }

  lemma OneMoreItem(items: set<(string, ApiResource)>, group: string, resources: seq<ApiResource>, r: ApiResource)
    ensures items + ListItems(group, resources + [r]) ==
      items + ListItems(group, resources) + (if Indexable(r) then {(group, r)} else {})
  {
  }

  /** One listed resource: skipped unless it is indexable, otherwise merged into its entry. */
  method AddResource(ghost groups: set<string>, ghost items: set<(string, ApiResource)>, before: Index, group: string,
                     apiResource: ApiResource)
    returns (index: Index)
    requires IndexExact(groups, items, before) && group in groups
    ensures IndexExact(groups, items + (if Indexable(apiResource) then {(group, apiResource)} else {}), index)
  {
    if apiResource.namespaced || '/' in apiResource.name {
      assert items + {} == items;
      return before;
    }
    var current := EntryOr(before, group, apiResource.name);
    EntryDistinct(groups, items, before, group, apiResource.name);
    var kinds := AppendUnique(current.kinds, [apiResource.kind]);
    var verbs := AppendUnique(current.verbs, apiResource.verbs);
    var after := Discovered(group, apiResource.name, kinds, verbs);
    IndexGrows(groups, items, before, group, apiResource, after);
    index := before[group := before[group][apiResource.name := after]];
  }

  lemma EntryDistinct(groups: set<string>, items: set<(string, ApiResource)>, index: Index, group: string, name: string)
    requires IndexExact(groups, items, index) && group in groups
    ensures Distinct(EntryOr(index, group, name).kinds) && Distinct(EntryOr(index, group, name).verbs)
  {
  }

  method AddResources(ghost groups: set<string>, ghost items: set<(string, ApiResource)>, before: Index, group: string,
                      resources: seq<ApiResource>)
    returns (index: Index)
    requires IndexExact(groups, items, before) && group in groups
    ensures IndexExact(groups, items + ListItems(group, resources), index)
  {
    index := before;
    assert items + ListItems(group, []) == items;
    for j := 0 to |resources|
      invariant IndexExact(groups, items + ListItems(group, resources[..j]), index)
    {
      OneMoreItem(items, group, resources[..j], resources[j]);
      assert resources[..j + 1] == resources[..j] + [resources[j]];
      index := AddResource(groups, items + ListItems(group, resources[..j]), index, group, resources[j]);
    }
    assert resources[..|resources|] == resources;
  }

  lemma OpenGroup(groups: set<string>, items: set<(string, ApiResource)>, index: Index, group: string)
    requires IndexExact(groups, items, index) && group !in index
    requires forall item :: item in items ==> item.0 in groups
    ensures IndexExact(groups + {group}, items, index[group := map[]])
  {
    forall r: ApiResource ensures (group, r) !in items {
      assert (group, r).0 == group;
    }
    assert forall n :: !Named(items, group, n);
  }

  /** The index is exact for whole lists: their groups, and the indexable resources they list. */
  ghost predicate IndexOf(lists: seq<ResourceList>, index: Index) {
    IndexExact(ListedGroups(lists), ListedItems(lists), index)
  }

  lemma ListedSnoc(lists: seq<ResourceList>, list: ResourceList)
    requires ParseGroup(list.groupVersion).Some?
    ensures ListedGroups(lists + [list]) == ListedGroups(lists) + {ParseGroup(list.groupVersion).value}
    ensures ListedItems(lists + [list]) ==
      ListedItems(lists) + ListItems(ParseGroup(list.groupVersion).value, list.resources)
  {
    var all := lists + [list];
    assert list in all && forall l :: l in all <==> l in lists || l == list;
  }

  lemma ItemsHaveGroups(lists: seq<ResourceList>)
    ensures forall item :: item in ListedItems(lists) ==> item.0 in ListedGroups(lists)
  {
  }

  method DiscoverClusterResources(lists: seq<ResourceList>, outcome: DiscoveryOutcome)
    returns (r: Result<Index, DiscoveryError>)
    ensures r.Ok? <==> !outcome.DiscoveryFailed? && forall l :: l in lists ==> ParseGroup(l.groupVersion).Some?
    ensures r.Ok? ==> IndexOf(lists, r.value)
  {
    if outcome.DiscoveryFailed? {
      return Err(NoDiscovery);
    }
    var index: Index := map[];
    for i := 0 to |lists|
      invariant forall l :: l in lists[..i] ==> ParseGroup(l.groupVersion).Some?
      invariant IndexOf(lists[..i], index)
    {
      var list := lists[i];
      assert list in lists && lists[..i + 1] == lists[..i] + [list];
      var group := ParseGroup(list.groupVersion);
      if group.None? {
        return Err(BadGroupVersion(list.groupVersion));
      }
      ghost var groups, items := ListedGroups(lists[..i]), ListedItems(lists[..i]);
      ItemsHaveGroups(lists[..i]);
      if group.value !in index {
        OpenGroup(groups, items, index, group.value);
        index := index[group.value := map[]];
      } else {
        assert groups + {group.value} == groups;
      }
      index := AddResources(groups + {group.value}, items, index, group.value, list.resources);
      ListedSnoc(lists[..i], list);
    }
    assert lists[..|lists|] == lists;
    r := Ok(index);
  }

  /** Every entry of a discovered index has a kind. */
  lemma DiscoveredHaveKinds(lists: seq<ResourceList>, index: Index, group: string, name: string)
    requires IndexOf(lists, index) && group in index && name in index[group]
    ensures index[group][name].kinds != []
  {
    assert EntryExact(ListedItems(lists), group, name, index[group][name]);
    var r :| (group, r) in ListedItems(lists) && r.name == name;
    assert r.kind in index[group][name].kinds;
  }

  // ---------- Validation ----------

  const WILDCARD := "*"

  datatype ValidationError =
    | NoApiGroups
    | NoResources
    | UnsupportedOperation(index: nat)
    | WildcardGroupCombined
    | WildcardResourceCombined
    | GroupNotDiscovered(group: string)
    | ResourceNotDiscovered(group: string, resource: string)
    | NoKind(group: string, resource: string)
    | VerbNotSupported(group: string, resource: string, operation: Operation)

  /** The block is malformed in this way. */
  predicate Malformed(cr: ClusterResource, e: ValidationError) {
    match e
    case NoApiGroups => cr.apiGroups == []
    case NoResources => cr.resources == []
    case UnsupportedOperation(i) => i < |cr.operations| && cr.operations[i] != LIST && cr.operations[i] != GET
    case WildcardGroupCombined => WILDCARD in cr.apiGroups && |cr.apiGroups| > 1
    case WildcardResourceCombined => WILDCARD in cr.resources && |cr.resources| > 1
    case _ => false
  }

  function VerbOf(operation: Operation): string { if operation == LIST then "list" else "get" }

  /** The entry fails in this way. */
  predicate EntryFails(group: string, name: string, d: Discovered, operations: seq<Operation>, e: ValidationError) {
    || (e == NoKind(group, name) && d.kinds == [])
    || (e.VerbNotSupported? && e.group == group && e.resource == name && e.operation in operations && VerbOf(e.operation) !in d.verbs)
  }

  /** The API groups a block covers: all discovered ones for the wildcard. */
  function CoveredGroups(cr: ClusterResource, index: Index): set<string> {
    if WILDCARD in cr.apiGroups then index.Keys else Elements(cr.apiGroups)
  }

  /** The resources a block covers in a discovered group: all its resources for the wildcard. */
  function CoveredResources(cr: ClusterResource, index: Index, group: string): set<string>
    requires group in index
  {
    if WILDCARD in cr.resources then index[group].Keys else Elements(cr.resources)
  }

  /** What one covered resource of a discovered group fails in. */
  predicate ResourceFails(index: Index, group: string, name: string, operations: seq<Operation>, e: ValidationError)
    requires group in index
  {
    if name !in index[group] then e == ResourceNotDiscovered(group, name)
    else EntryFails(group, name, index[group][name], operations, e)
  }

  /** One of these resources fails in this way. */
  predicate SomeResourceFails(index: Index, group: string, names: set<string>, operations: seq<Operation>, e: ValidationError)
    requires group in index
  {
    exists name | name in names :: ResourceFails(index, group, name, operations, e)
  }

  /** A covered group fails in this way. */
  predicate GroupFails(cr: ClusterResource, index: Index, group: string, e: ValidationError) {
    if group !in index then e == GroupNotDiscovered(group)
    else SomeResourceFails(index, group, CoveredResources(cr, index, group), Effective(cr), e)
  }

  /** What is reported: the malformations if there are any, otherwise what each covered group fails in. */
  ghost predicate Reported(cr: ClusterResource, index: Index, e: ValidationError) {
    if exists m :: Malformed(cr, m) then Malformed(cr, e)
    else exists group | group in CoveredGroups(cr, index) :: GroupFails(cr, index, group, e)
  }

  method ValidateOperations(cr: ClusterResource) returns (errs: seq<ValidationError>)
    ensures forall e :: e in errs <==> e.UnsupportedOperation? && Malformed(cr, e)
    ensures Distinct(errs)
  {
    errs := [];
    for i := 0 to |cr.operations|
      invariant forall e :: e in errs <==> e.UnsupportedOperation? && e.index < i && Malformed(cr, e)
      invariant Distinct(errs) && forall k :: 0 <= k < |errs| ==> errs[k] in errs
    {
      if cr.operations[i] == LIST || cr.operations[i] == GET {
        continue;
      }
      errs := errs + [UnsupportedOperation(i)];
    }
  }

  method ValidateEntry(group: string, name: string, d: Discovered, operations: seq<Operation>) returns (errs: seq<ValidationError>)
    ensures forall e :: e in errs <==> EntryFails(group, name, d, operations, e)
    ensures Distinct(operations) ==> Distinct(errs)
  {
    errs := [];
    if |d.kinds| == 0 {
      errs := errs + [NoKind(group, name)];
    }
    ghost var first := errs;
    for i := 0 to |operations|
      invariant forall e :: e in errs <==> e in first || (e.VerbNotSupported? && EntryFails(group, name, d, operations[..i], e))
      invariant Distinct(operations) ==> Distinct(errs)
      invariant forall k :: 0 <= k < |errs| ==> errs[k] in errs
    {
      assert operations[..i + 1] == operations[..i] + [operations[i]];
      if VerbOf(operations[i]) in d.verbs {
        continue;
      }
      errs := errs + [VerbNotSupported(group, name, operations[i])];
    }
    assert operations[..|operations|] == operations;
  }

  method ValidateShape(cr: ClusterResource) returns (errs: seq<ValidationError>)
    ensures forall e :: e in errs <==> Malformed(cr, e)
  {
    errs := [];
    if |cr.apiGroups| == 0 {
      errs := errs + [NoApiGroups];
    }
    if |cr.resources| == 0 {
      errs := errs + [NoResources];
    }
    var operationErrs := ValidateOperations(cr);
    errs := errs + operationErrs;
    if WILDCARD in cr.apiGroups && |cr.apiGroups| > 1 {
      errs := errs + [WildcardGroupCombined];
    }
    if WILDCARD in cr.resources && |cr.resources| > 1 {
      errs := errs + [WildcardResourceCombined];
    }
  }

  lemma OneMoreFails(index: Index, group: string, names: set<string>, name: string, operations: seq<Operation>, e: ValidationError)
    requires group in index
    ensures SomeResourceFails(index, group, names + {name}, operations, e) <==>
      SomeResourceFails(index, group, names, operations, e) || ResourceFails(index, group, name, operations, e)
  {
    assert name in names + {name};
    if n :| n in names && ResourceFails(index, group, n, operations, e) { assert n in names + {name}; }
  }

  method ValidateGroup(cr: ClusterResource, index: Index, group: string) returns (errs: seq<ValidationError>)
    ensures forall e :: e in errs <==> GroupFails(cr, index, group, e)
  {
    if group !in index {
      return [GroupNotDiscovered(group)];
    }
    errs := [];
    var operations := EffectiveOperations(cr);
    if WILDCARD in cr.resources {
      var rest := index[group].Keys;
      while rest != {}
        invariant rest <= index[group].Keys
        invariant forall e :: e in errs <==> SomeResourceFails(index, group, index[group].Keys - rest, operations, e)
        decreases rest
      {
        var name :| name in rest;
        var more := ValidateEntry(group, name, index[group][name], operations);
        errs := errs + more;
        forall e { OneMoreFails(index, group, index[group].Keys - rest, name, operations, e); }
        assert index[group].Keys - (rest - {name}) == index[group].Keys - rest + {name};
        rest := rest - {name};
      }
      assert index[group].Keys - {} == index[group].Keys;
      return;
    }
    for i := 0 to |cr.resources|
      invariant forall e :: e in errs <==> SomeResourceFails(index, group, Elements(cr.resources[..i]), operations, e)
    {
      var name := cr.resources[i];
      assert cr.resources[..i + 1] == cr.resources[..i] + [name];
      assert Elements(cr.resources[..i + 1]) == Elements(cr.resources[..i]) + {name};
      forall e { OneMoreFails(index, group, Elements(cr.resources[..i]), name, operations, e); }
      if name !in index[group] {
        errs := errs + [ResourceNotDiscovered(group, name)];
        continue;
      }
      var more := ValidateEntry(group, name, index[group][name], operations);
      errs := errs + more;
    }
    assert cr.resources[..|cr.resources|] == cr.resources;
  }

  method ValidateClusterResourceBlock(cr: ClusterResource, index: Index) returns (errs: seq<ValidationError>)
    ensures forall e :: e in errs <==> Reported(cr, index, e)
    ensures errs == [] <==> WellFormed(cr) && Supported(cr, index)
  {
    ReportedIff(cr, index);
    errs := ValidateShape(cr);
    if |errs| > 0 {
      assert Malformed(cr, errs[0]);
      return;
    }
    var apiGroups := cr.apiGroups;
    if WILDCARD in apiGroups {
      apiGroups := SortedList(index.Keys);
    }
    for i := 0 to |apiGroups|
      invariant forall e :: e in errs <==> exists group :: group in apiGroups[..i] && GroupFails(cr, index, group, e)
    {
      assert apiGroups[..i + 1] == apiGroups[..i] + [apiGroups[i]];
      var more := ValidateGroup(cr, index, apiGroups[i]);
      errs := errs + more;
    }
    assert apiGroups[..|apiGroups|] == apiGroups;
    assert Elements(apiGroups) == CoveredGroups(cr, index);
    assert errs != [] ==> errs[0] in errs;
  }

  // ---------- When a block is accepted ----------

  predicate WellFormed(cr: ClusterResource) {
    && cr.apiGroups != [] && cr.resources != []
    && (forall i :: 0 <= i < |cr.operations| ==> cr.operations[i] == LIST || cr.operations[i] == GET)
    && (WILDCARD in cr.apiGroups ==> |cr.apiGroups| == 1)
    && (WILDCARD in cr.resources ==> |cr.resources| == 1)
  }

  /** Every covered group is discovered, every covered resource is indexed there with a kind and every enabled verb. */
  predicate Supported(cr: ClusterResource, index: Index) {
    forall group | group in CoveredGroups(cr, index) :: GroupSupported(cr, index, group)
  }

  lemma WellFormedIff(cr: ClusterResource)
    ensures WellFormed(cr) <==> !exists e :: Malformed(cr, e)
  {
    if !WellFormed(cr) {
      if i :| 0 <= i < |cr.operations| && cr.operations[i] != LIST && cr.operations[i] != GET {
        assert Malformed(cr, UnsupportedOperation(i));
      } else if cr.apiGroups == [] {
        assert Malformed(cr, NoApiGroups);
      } else if cr.resources == [] {
        assert Malformed(cr, NoResources);
      } else if WILDCARD in cr.apiGroups && |cr.apiGroups| > 1 {
        assert Malformed(cr, WildcardGroupCombined);
      } else {
        assert Malformed(cr, WildcardResourceCombined);
      }
    }
  }

  lemma EntrySupportedIff(cr: ClusterResource, group: string, name: string, d: Discovered)
    ensures (exists e :: EntryFails(group, name, d, Effective(cr), e)) <==>
      d.kinds == [] || (Allows(cr, LIST) && "list" !in d.verbs) || (Allows(cr, GET) && "get" !in d.verbs)
  {
    if d.kinds == [] { assert EntryFails(group, name, d, Effective(cr), NoKind(group, name)); }
    if Allows(cr, LIST) && "list" !in d.verbs { assert EntryFails(group, name, d, Effective(cr), VerbNotSupported(group, name, LIST)); }
    if Allows(cr, GET) && "get" !in d.verbs { assert EntryFails(group, name, d, Effective(cr), VerbNotSupported(group, name, GET)); }
  }

  /** The entry the block needs. */
  predicate EntrySupported(cr: ClusterResource, index: Index, group: string, name: string)
    requires group in index
  {
    && name in index[group]
    && index[group][name].kinds != []
    && (Allows(cr, LIST) ==> "list" in index[group][name].verbs)
    && (Allows(cr, GET) ==> "get" in index[group][name].verbs)
  }

  lemma ResourceSupportedIff(cr: ClusterResource, index: Index, group: string, name: string)
    requires group in index
    ensures (exists e :: ResourceFails(index, group, name, Effective(cr), e)) <==> !EntrySupported(cr, index, group, name)
  {
    if name in index[group] {
      EntrySupportedIff(cr, group, name, index[group][name]);
      assert forall e :: ResourceFails(index, group, name, Effective(cr), e) <==>
        EntryFails(group, name, index[group][name], Effective(cr), e);
    } else {
      assert ResourceFails(index, group, name, Effective(cr), ResourceNotDiscovered(group, name));
    }
  }

  /** A covered group with everything the block needs. */
  predicate GroupSupported(cr: ClusterResource, index: Index, group: string) {
    group in index && forall name | name in CoveredResources(cr, index, group) :: EntrySupported(cr, index, group, name)
  }

  lemma GroupSupportedIff(cr: ClusterResource, index: Index, group: string)
    ensures (exists e :: GroupFails(cr, index, group, e)) <==> !GroupSupported(cr, index, group)
  {
    if group !in index {
      assert GroupFails(cr, index, group, GroupNotDiscovered(group));
    } else {
      forall name { ResourceSupportedIff(cr, index, group, name); }
      if name :| name in CoveredResources(cr, index, group) && !EntrySupported(cr, index, group, name) {
        var e :| ResourceFails(index, group, name, Effective(cr), e);
        assert GroupFails(cr, index, group, e);
      }
    }
  }

  /** Something is reported unless the block is well formed and everything it covers is supported. */
  lemma ReportedIff(cr: ClusterResource, index: Index)
    ensures (exists e :: Reported(cr, index, e)) <==> !(WellFormed(cr) && Supported(cr, index))
  {
    WellFormedIff(cr);
    if WellFormed(cr) {
      forall group { GroupSupportedIff(cr, index, group); }
      if group :| group in CoveredGroups(cr, index) && !GroupSupported(cr, index, group) {
        var e :| GroupFails(cr, index, group, e);
        assert Reported(cr, index, e);
      }
    } else {
      var m :| Malformed(cr, m);
      assert Reported(cr, index, m);
    }
  }

  // ---------- What acceptance means for enforcement ----------

  /** Slashes never get into the index. */
  lemma DiscoveredGroupsHaveNoSlash(lists: seq<ResourceList>, index: Index, group: string)
    requires IndexOf(lists, index) && group in index
    ensures SLASH !in group
  {
    var l :| l in lists && ParseGroup(l.groupVersion) == Some(group);
    SplitPieces(l.groupVersion, '/');
  }

  predicate Accepted(cr: ClusterResource, index: Index) { WellFormed(cr) && Supported(cr, index) }

  lemma AcceptedGroupIsIndexed(cr: ClusterResource, index: Index, apiGroup: string)
    requires Accepted(cr, index) && apiGroup in cr.apiGroups
    ensures apiGroup == WILDCARD || apiGroup in index
  {
    if WILDCARD !in cr.apiGroups {
      assert apiGroup in CoveredGroups(cr, index);
      assert GroupSupported(cr, index, apiGroup);
    }
  }

  /** A rule accepted against what was discovered asks nothing of the version. */
  lemma AcceptedRuleIsBlind(lists: seq<ResourceList>, index: Index, cr: ClusterResource)
    requires IndexOf(lists, index) && Accepted(cr, index)
    ensures BlindRule(cr)
  {
    forall i | 0 <= i < |cr.apiGroups| ensures SLASH !in cr.apiGroups[i] {
      AcceptedGroupIsIndexed(cr, index, cr.apiGroups[i]);
      if cr.apiGroups[i] != WILDCARD { DiscoveredGroupsHaveNoSlash(lists, index, cr.apiGroups[i]); }
    }
  }

  /** So reviews without a version about accepted rules are answered as the handlers would. */
  lemma AcceptedRulesAreBlind(lists: seq<ResourceList>, index: Index, tenants: seq<ProxyTenant>, resource: string)
    requires IndexOf(lists, index)
    requires forall t, cr :: t in tenants && cr in t.clusterResources ==> Accepted(cr, index)
    ensures BlindRules(tenants, resource)
  {
    forall t, cr | t in tenants && cr in t.clusterResources ensures BlindRule(cr) {
      AcceptedRuleIsBlind(lists, index, cr);
    }
  }

  /** If besides no group it names has a star, it matches by plain membership of group and resource. */
  lemma AcceptedMatchesPlainly(lists: seq<ResourceList>, index: Index, cr: ClusterResource, gvk: Gvk)
    requires IndexOf(lists, index) && Accepted(cr, index)
    requires forall g :: g in cr.apiGroups && g != WILDCARD ==> STAR !in g
    ensures RuleMatches(Some(gvk), cr) <==>
      CoversResource(cr, gvk.kind) && (WILDCARD in cr.apiGroups || gvk.group in cr.apiGroups)
  {
    forall i | 0 <= i < |cr.apiGroups|
      ensures GroupMatches(cr.apiGroups[i], gvk) <==> cr.apiGroups[i] == WILDCARD || cr.apiGroups[i] == gvk.group
    {
      AcceptedGroupIsIndexed(cr, index, cr.apiGroups[i]);
      if cr.apiGroups[i] != WILDCARD {
        DiscoveredGroupsHaveNoSlash(lists, index, cr.apiGroups[i]);
        LiteralGroup(cr.apiGroups[i], gvk);
      }
    }
  }
  // ---------- Discovery in the terms of a server ----------

  /** The resources a server lists for one version of a group; the core group has no name. */
  datatype Listing = Listing(group: string, version: string, resources: seq<ApiResource>)

  predicate PlainListing(l: Listing) { SLASH !in l.group && SLASH !in l.version }

  /** The list as discovery hands it over, its group and version written into one text. */
  function Printed(l: Listing): ResourceList {
    ResourceList(if l.group == "" then l.version else l.group + [SLASH] + l.version, l.resources)
  }

  function PrintedAll(listings: seq<Listing>): (lists: seq<ResourceList>)
    ensures |lists| == |listings| && forall i :: 0 <= i < |lists| ==> lists[i] == Printed(listings[i])
  {
    seq(|listings|, i requires 0 <= i < |listings| => Printed(listings[i]))
  }

  /** The group of a printed list is read back; a text with a second slash is refused. */
  lemma PrintedGroupParses(group: string, version: string, more: string)
    requires SLASH !in group && SLASH !in version
    ensures ParseGroup(group + [SLASH] + version) == Some(group)
    ensures ParseGroup(version) == Some("")
    ensures ParseGroup(group + [SLASH] + version + [SLASH] + more) == None
  {
    SplitHead(group, version, SLASH);
    SplitHead(version, [], SLASH);
    var three := group + [SLASH] + (version + [SLASH] + more);
    assert group + [SLASH] + version + [SLASH] + more == three;
    SplitHead(group, version + [SLASH] + more, SLASH);
    SplitHead(version, more, SLASH);
    assert |three| >= 2;
  }

  lemma PrintedGroup(l: Listing)
    requires PlainListing(l)
    ensures ParseGroup(Printed(l).groupVersion) == Some(l.group)
  {
    PrintedGroupParses(l.group, l.version, []);
  }

  /** The server lists the resource as cluster-scoped, and not as part of another, in some version of the group. */
  predicate ListsResource(listings: seq<Listing>, group: string, r: ApiResource) {
    !r.namespaced && SLASH !in r.name && exists l | l in listings :: l.group == group && r in l.resources
  }

  lemma PrintedMembers(listings: seq<Listing>, l: ResourceList)
    ensures l in PrintedAll(listings) <==> exists k :: k in listings && Printed(k) == l
  {
    var lists := PrintedAll(listings);
    if l in lists {
      var i :| 0 <= i < |lists| && lists[i] == l;
      assert listings[i] in listings;
    }
    if k :| k in listings && Printed(k) == l {
      var i :| 0 <= i < |listings| && listings[i] == k;
      assert lists[i] == l;
    }
  }

  lemma PrintedItem(listings: seq<Listing>, group: string, r: ApiResource)
    requires forall l :: l in listings ==> PlainListing(l)
    ensures (group, r) in ListedItems(PrintedAll(listings)) <==> ListsResource(listings, group, r)
  {
    var lists := PrintedAll(listings);
    if (group, r) in ListedItems(lists) {
      var l :| l in lists && ParseGroup(l.groupVersion).Some? && (group, r) in ListItems(ParseGroup(l.groupVersion).value, l.resources);
      PrintedMembers(listings, l);
      var k :| k in listings && Printed(k) == l;
      PrintedGroup(k);
    }
    if ListsResource(listings, group, r) {
      var k :| k in listings && k.group == group && r in k.resources;
      PrintedMembers(listings, Printed(k));
      PrintedGroup(k);
      assert (group, r) in ListItems(group, Printed(k).resources);
    }
  }

  /** The index of what a server lists: exactly its groups, and in each exactly the listed resources, with all kinds and verbs. */
  ghost predicate IndexesServer(listings: seq<Listing>, index: Index) {
    && (forall g :: g in index <==> exists l :: l in listings && l.group == g)
    && (forall g, n :: g in index ==> (n in index[g] <==> exists r: ApiResource :: ListsResource(listings, g, r) && r.name == n))
    && (forall g, n, k :: g in index && n in index[g] ==>
          (k in index[g][n].kinds <==> exists r: ApiResource :: ListsResource(listings, g, r) && r.name == n && r.kind == k))
    && (forall g, n, v :: g in index && n in index[g] ==>
          (v in index[g][n].verbs <==> exists r: ApiResource :: ListsResource(listings, g, r) && r.name == n && v in r.verbs))
  }

  lemma PrintedGroups(listings: seq<Listing>, group: string)
    requires forall l :: l in listings ==> PlainListing(l)
    ensures group in ListedGroups(PrintedAll(listings)) <==> exists l :: l in listings && l.group == group
  {
    if group in ListedGroups(PrintedAll(listings)) {
      var l :| l in PrintedAll(listings) && ParseGroup(l.groupVersion) == Some(group);
      PrintedMembers(listings, l);
      var k :| k in listings && Printed(k) == l;
      PrintedGroup(k);
    }
    if k :| k in listings && k.group == group {
      PrintedMembers(listings, Printed(k));
      PrintedGroup(k);
    }
  }

  /** Discovery never refuses a server's lists, and files each resource under its own group. */
  lemma DiscoveryIndexesServer(listings: seq<Listing>, index: Index)
    requires forall l :: l in listings ==> PlainListing(l)
    requires IndexOf(PrintedAll(listings), index)
    ensures IndexesServer(listings, index)
  {
    forall g { PrintedGroups(listings, g); }
    forall g, r: ApiResource { PrintedItem(listings, g, r); }
    forall g, n | g in index && n in index[g]
      ensures EntryExact(ListedItems(PrintedAll(listings)), g, n, index[g][n]) {}
  }

  method DiscoverServer(listings: seq<Listing>) returns (index: Index)
    requires forall l :: l in listings ==> PlainListing(l)
    ensures IndexesServer(listings, index)
  {
    var r := DiscoverClusterResources(PrintedAll(listings), Complete);
    forall l | l in PrintedAll(listings) ensures ParseGroup(l.groupVersion).Some? {
      PrintedMembers(listings, l);
      var k :| k in listings && Printed(k) == l;
      PrintedGroup(k);
    }
    DiscoveryIndexesServer(listings, r.value);
    index := r.value;
  }

  // ---------- Acceptance in full ----------

  /** The block asks for the group: by name, or for all that were discovered. */
  predicate AsksGroup(cr: ClusterResource, index: Index, group: string) {
    if "*" in cr.apiGroups then group in index else group in cr.apiGroups
  }

  predicate AsksResource(cr: ClusterResource, index: Index, group: string, name: string)
    requires group in index
  {
    if "*" in cr.resources then name in index[group] else name in cr.resources
  }

  /** The entry has a kind and the verbs of the operations the block configures. */
  predicate Provides(cr: ClusterResource, d: Discovered) {
    && d.kinds != []
    && (cr.operations == [] || "List" in cr.operations ==> "list" in d.verbs && "get" in d.verbs)
    && ("Get" in cr.operations ==> "get" in d.verbs)
  }

  /** A block is accepted iff it is well formed, all groups it asks for were discovered, and all resources provide what it configures. */
  lemma AcceptedIff(cr: ClusterResource, index: Index)
    ensures Accepted(cr, index) <==>
      && WellFormed(cr)
      && (forall group :: AsksGroup(cr, index, group) ==> group in index)
      && (forall group, name :: AsksGroup(cr, index, group) && group in index && AsksResource(cr, index, group, name) ==>
            name in index[group] && Provides(cr, index[group][name]))
  {
    forall group ensures AsksGroup(cr, index, group) <==> group in CoveredGroups(cr, index) {}
    forall group, name | group in index
      ensures AsksResource(cr, index, group, name) <==> name in CoveredResources(cr, index, group)
      ensures EntrySupported(cr, index, group, name) <==> name in index[group] && Provides(cr, index[group][name])
    {
    }
  }
  /** A malformed block is told all that is wrong with its shape, and only that. */
  lemma MalformedIsReported(cr: ClusterResource, index: Index, i: nat, other: ValidationError)
    requires !WellFormed(cr)
    ensures Reported(cr, index, NoApiGroups) <==> cr.apiGroups == []
    ensures Reported(cr, index, NoResources) <==> cr.resources == []
    ensures Reported(cr, index, UnsupportedOperation(i)) <==>
      i < |cr.operations| && cr.operations[i] != "List" && cr.operations[i] != "Get"
    ensures Reported(cr, index, WildcardGroupCombined) <==> "*" in cr.apiGroups && |cr.apiGroups| > 1
    ensures Reported(cr, index, WildcardResourceCombined) <==> "*" in cr.resources && |cr.resources| > 1
    ensures other.GroupNotDiscovered? || other.ResourceNotDiscovered? || other.NoKind? || other.VerbNotSupported? ==>
      !Reported(cr, index, other)
  {
    WellFormedIff(cr);
  }

  /** The block asks for the resource in a discovered group. */
  predicate Asks(cr: ClusterResource, index: Index, group: string, name: string) {
    AsksGroup(cr, index, group) && group in index && AsksResource(cr, index, group, name)
  }

  lemma AsksIff(cr: ClusterResource, index: Index, group: string, name: string)
    ensures AsksGroup(cr, index, group) <==> group in CoveredGroups(cr, index)
    ensures Asks(cr, index, group, name) <==>
      group in CoveredGroups(cr, index) && group in index && name in CoveredResources(cr, index, group)
  {
  }

  lemma ReportedOfGroup(cr: ClusterResource, index: Index, group: string, e: ValidationError)
    requires WellFormed(cr)
    requires forall g :: GroupFails(cr, index, g, e) ==> g == group
    ensures Reported(cr, index, e) <==> group in CoveredGroups(cr, index) && GroupFails(cr, index, group, e)
  {
    WellFormedIff(cr);
  }

  lemma ReportedOfResource(cr: ClusterResource, index: Index, group: string, name: string, e: ValidationError)
    requires WellFormed(cr) && e != GroupNotDiscovered(group)
    requires forall g :: GroupFails(cr, index, g, e) ==> g == group
    requires group in index ==> forall n :: ResourceFails(index, group, n, Effective(cr), e) ==> n == name
    ensures Reported(cr, index, e) <==> Asks(cr, index, group, name) && ResourceFails(index, group, name, Effective(cr), e)
  {
    ReportedOfGroup(cr, index, group, e);
    AsksIff(cr, index, group, name);
  }

  lemma EffectiveIs(cr: ClusterResource, operation: Operation)
    ensures operation in Effective(cr) <==> (operation == "List" || operation == "Get") && Serves(cr, operation)
  {
  }

  /** A well-formed block is told of each group and resource it asks for that is missing, lacks a kind or lacks a verb. */
  lemma UnsupportedIsReported(cr: ClusterResource, index: Index, group: string, name: string)
    requires WellFormed(cr)
    ensures Reported(cr, index, GroupNotDiscovered(group)) <==> AsksGroup(cr, index, group) && group !in index
    ensures Reported(cr, index, ResourceNotDiscovered(group, name)) <==> Asks(cr, index, group, name) && name !in index[group]
    ensures Reported(cr, index, NoKind(group, name)) <==>
      Asks(cr, index, group, name) && name in index[group] && index[group][name].kinds == []
    ensures Reported(cr, index, VerbNotSupported(group, name, "List")) <==>
      Asks(cr, index, group, name) && name in index[group] && Serves(cr, "List") && "list" !in index[group][name].verbs
    ensures Reported(cr, index, VerbNotSupported(group, name, "Get")) <==>
      Asks(cr, index, group, name) && name in index[group] && Serves(cr, "Get") && "get" !in index[group][name].verbs
  {
    AsksIff(cr, index, group, name);
    ReportedOfGroup(cr, index, group, GroupNotDiscovered(group));
    ReportedOfResource(cr, index, group, name, ResourceNotDiscovered(group, name));
    ReportedOfResource(cr, index, group, name, NoKind(group, name));
    ReportedOfResource(cr, index, group, name, VerbNotSupported(group, name, "List"));
    ReportedOfResource(cr, index, group, name, VerbNotSupported(group, name, "Get"));
    EffectiveIs(cr, "List");
    EffectiveIs(cr, "Get");
  }
}
