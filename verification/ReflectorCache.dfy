/** The reflector's result cache: its effect on values, and the class whose slices are never shared with callers. */
module ReflectorCache {
  import opened Kubernetes
  import opened Ordering
  import opened ReflectionKey
  import opened RoleBindings
  import opened Wrappers

  // ---------- The cache as a value ----------

  datatype Entry = Entry(generation: nat, tenants: seq<string>)

  /** The generation counter is unbounded here. */
  datatype Cache = Cache(generation: nat, results: map<string, Entry>)

  function Lookup(c: Cache, key: string): Option<seq<string>> {
    if key in c.results && c.results[key].generation == c.generation then Some(c.results[key].tenants) else None
  }

  function Stored(c: Cache, key: string, tenants: seq<string>, generation: nat): Cache {
    if generation == c.generation then c.(results := c.results[key := Entry(generation, tenants)]) else c
  }

  function Invalidated(c: Cache): Cache { Cache(c.generation + 1, map[]) }

  // ---------- The cache as an object ----------

  datatype CachedReflectionResult = CachedReflectionResult(generation: nat, tenants: array<string>)

  class RoleBindingReflector {
    var reader: Stores
    var resultsGeneration: nat
    var results: map<string, CachedReflectionResult>

    /** Every slice a caller has handed in or been given. */
    ghost var shared: set<array<string>>

    /** The slices the cache holds. */
    ghost function Owned(): set<array<string>>
      reads this
    {
      set key | key in results :: results[key].tenants
    }

    ghost function View(): Cache
      reads this, Owned()
    {
      Cache(resultsGeneration, map key | key in results :: Entry(results[key].generation, results[key].tenants[..]))
    }

    /** No slice held by the cache has ever been in a caller's hands. */
    ghost predicate Valid()
      reads this
    {
      Owned() !! shared && ValidStores(reader)
    }

    constructor (reader: Stores)
      requires ValidStores(reader)
      ensures Valid() && View() == Cache(0, map[]) && this.reader == reader && shared == {}
    {
      this.reader := reader;
      resultsGeneration := 0;
      results := map[];
      shared := {};
    }

    method CopySlice(s: array<string>) returns (copy: array<string>)
      ensures fresh(copy) && copy[..] == s[..]
    {
      copy := new string[s.Length](i requires 0 <= i < s.Length reads s => s[i]);
    }

    method SliceOf(s: seq<string>) returns (slice: array<string>)
      ensures fresh(slice) && slice[..] == s
    {
      slice := new string[|s|](i requires 0 <= i < |s| => s[i]);
    }

    method CachedResult(key: string) returns (result: array<string>, ok: bool)
      requires Valid()
      modifies this`shared
      ensures Valid() && View() == old(View())
      ensures ok <==> Lookup(View(), key).Some?
      ensures ok ==> result[..] == Lookup(View(), key).value
      ensures fresh(result) && shared == old(shared) + {result}
    {
      if key !in results || results[key].generation != resultsGeneration {
        result := new string[0];
        ok := false;
      } else {
        result := CopySlice(results[key].tenants);
        ok := true;
      }
      shared := shared + {result};
    }

    method StoreResult(key: string, result: array<string>, generation: nat)
      requires Valid() && result !in Owned()
      modifies this`results, this`shared
      ensures Valid() && View() == Stored(old(View()), key, result[..], generation)
      ensures shared == old(shared) + {result}
      ensures forall a :: a in Owned() && a !in old(Owned()) ==> fresh(a)
    {
      shared := shared + {result};
      if generation == resultsGeneration {
        var copy := CopySlice(result);
        results := results[key := CachedReflectionResult(generation, copy)];
      }
    }

    method InvalidateResults()
      requires Valid()
      modifies this`results, this`resultsGeneration
      ensures Valid() && View() == Invalidated(old(View())) && Owned() == {}
    {
      resultsGeneration := resultsGeneration + 1;
      results := map[];
    }

    method GetUserTenantNamesForResource(q: Question) returns (result: array<string>, err: Option<LookupError>)
      requires Valid()
      modifies this`results, this`shared
      ensures Valid() && fresh(result) && shared >= old(shared) + {result}
      ensures forall a :: a in shared && a !in old(shared) ==> fresh(a)
      ensures Lookup(old(View()), ResultKey(q)).Some? ==>
        err.None? && result[..] == Lookup(old(View()), ResultKey(q)).value && View() == old(View())
      ensures Lookup(old(View()), ResultKey(q)).None? && Fresh(reader, q).Ok? ==>
        && err.None?
        && result[..] == Fresh(reader, q).value
        && View() == Stored(old(View()), ResultKey(q), Fresh(reader, q).value, resultsGeneration)
      ensures Lookup(old(View()), ResultKey(q)).None? && Fresh(reader, q).Err? ==>
        err == Some(Fresh(reader, q).error) && View() == old(View())
    {
      var key := ResultKey(q);
      var cached, ok := CachedResult(key);
      if ok {
        return cached, None;
      }
      var generation := resultsGeneration;
      var names := ComputeTenantNames(reader, q);
      if names.Err? {
        return cached, Some(names.error);
      }
      result := SliceOf(names.value);
      StoreResult(key, result, generation);
      err := None;
    }

    /** A caller overwriting a slice it was given, or had handed in, leaves the cache as it was. */
    method CallerOverwrites(slice: array<string>, i: nat, value: string)
      requires Valid() && slice in shared && i < slice.Length
      modifies slice
      ensures Valid() && View() == old(View())
    {
      slice[i] := value;
    }
  }

  /** The answer a request computes when nothing is cached. */
  method ComputeTenantNames(stores: Stores, q: Question) returns (r: Result<seq<string>, LookupError>)
    requires ValidStores(stores)
    ensures r == Fresh(stores, q)
  {
    var namespaces := GetUserNamespacesForResource(stores, q);
    if namespaces.Err? {
      return Err(namespaces.error);
    }
    var tenantNames := ResolveTenants(stores, namespaces.value);
    assert Elements(namespaces.value) == ReflectedNamespaces(stores, q).value;
    r := Ok(SortedList(tenantNames));
  }

  /** The tenants of the listed namespaces that exist and belong to one. */
  method ResolveTenants(stores: Stores, names: seq<string>) returns (tenants: set<string>)
    ensures tenants == TenantsOf(stores, Elements(names))
  {
    tenants := {};
    for i := 0 to |names|
      invariant tenants == TenantsOf(stores, Elements(names[..i]))
    {
      TenantsSnoc(stores, names[..i], names[i]);
      assert names[..i + 1] == names[..i] + [names[i]];
      if names[i] in stores.namespaces {
        var tenant := ReflectedTenantName(stores.namespaces[names[i]]);
        if tenant != "" {
          tenants := tenants + {tenant};
        }
      }
    }
    assert names[..|names|] == names;
  }

  lemma TenantsSnoc(stores: Stores, names: seq<string>, name: string)
    ensures TenantsOf(stores, Elements(names + [name])) == TenantsOf(stores, Elements(names)) +
      (if name in stores.namespaces && TenantName(stores.namespaces[name]) != "" then {TenantName(stores.namespaces[name])} else {})
  {
    assert Elements(names + [name]) == Elements(names) + {name};
  }

  /** The new tenant label wins, then the old one, then the first owner of kind Tenant. */
  method ReflectedTenantName(ns: Namespace) returns (name: string)
    ensures name == TenantName(ns)
  {
    if NEW_TENANT_LABEL in ns.labels && ns.labels[NEW_TENANT_LABEL] != "" {
      return ns.labels[NEW_TENANT_LABEL];
    }
    if TENANT_LABEL in ns.labels && ns.labels[TENANT_LABEL] != "" {
      return ns.labels[TENANT_LABEL];
    }
    for i := 0 to |ns.owners|
      invariant FirstTenantOwner(ns.owners) == FirstTenantOwner(ns.owners[i..])
    {
      if ns.owners[i].kind == "Tenant" {
        return ns.owners[i].name;
      }
      assert ns.owners[i..][1..] == ns.owners[i + 1..];
    }
    name := "";
  }
}
