/**
 * The reflector under concurrency: store writes queue notifications that arrive later, while any number of
 * requests read the stores one call at a time. Whenever no notification is outstanding, every cached
 * result is what a fresh computation would give.
 */
module ReflectorRuns {
  import opened KeyCollisions
  import opened Ordering
  import opened ReflectionKey
  import opened ReflectorCache
  import opened RoleBindings
  import opened Wrappers

  // ---------- States ----------

  datatype StoreKind = RoleBindingStore | RoleStore | ClusterRoleStore | NamespaceStore

  /** How far a request has come. From `Captured` on it carries the generation it captured. */
  datatype Phase =
    | Missed
    | Listing(generation: nat, next: nat, found: set<RoleBinding>)
    | Checking(generation: nat, left: set<RoleBinding>, granted: set<string>)
    | Resolving(generation: nat, names: seq<string>, next: nat, tenants: set<string>)
    | Storing(generation: nat, result: seq<string>)
    | Answered(result: seq<string>)
    | Failed

  datatype Request = Request(question: Question, phase: Phase)

  datatype State = State(
    stores: Stores,
    pending: map<StoreKind, nat>,
    cache: Cache,
    requests: map<nat, Request>,
    asked: set<Question>)

  function Pending(s: State, kind: StoreKind): nat { if kind in s.pending then s.pending[kind] else 0 }

  /** No notification is outstanding. */
  ghost predicate Quiet(s: State) { forall kind :: Pending(s, kind) == 0 }

  ghost predicate Initial(s: State) {
    ValidStores(s.stores) && s.cache == Cache(0, map[]) && s.requests == map[] && s.asked == {}
  }

  // ---------- Steps ----------

  datatype Action =
    | Write(kind: StoreKind, stores: Stores)
    | Deliver(kind: StoreKind)
    | Ask(id: nat, question: Question)
    | Capture(id: nat)
    | ListNext(id: nat)
    | Check(id: nat, binding: RoleBinding)
    | ResolveNext(id: nat)
    | Store(id: nat)
    | Abort(id: nat)

  /** Only the written store changes. */
  predicate OnlyChanges(kind: StoreKind, before: Stores, after: Stores) {
    && (kind != RoleBindingStore ==> after.bindings == before.bindings)
    && (kind != RoleStore ==> after.roles == before.roles)
    && (kind != ClusterRoleStore ==> after.clusterRoles == before.clusterRoles)
    && (kind != NamespaceStore ==> after.namespaces == before.namespaces)
  }

  function SetPhase(s: State, id: nat, phase: Phase): State
    requires id in s.requests
  {
    s.(requests := s.requests[id := s.requests[id].(phase := phase)])
  }

  /** Later reads of a binding replace earlier ones. */
  function Override(found: set<RoleBinding>, items: set<RoleBinding>): set<RoleBinding> {
    (set b | b in found && forall c | c in items :: BindingKey(c) != BindingKey(b)) + items
  }

  ghost predicate Enabled(s: State, a: Action) {
    match a
    case Write(kind, stores) => ValidStores(stores) && OnlyChanges(kind, s.stores, stores)
    case Deliver(kind) => Pending(s, kind) > 0
    case Ask(id, _) => id !in s.requests
    case Capture(id) => id in s.requests && s.requests[id].phase.Missed?
    case ListNext(id) => id in s.requests && s.requests[id].phase.Listing?
    case Check(id, b) =>
      id in s.requests && s.requests[id].phase.Checking?
      && (b in s.requests[id].phase.left || s.requests[id].phase.left == {})
    case ResolveNext(id) => id in s.requests && s.requests[id].phase.Resolving?
    case Store(id) => id in s.requests && s.requests[id].phase.Storing?
    case Abort(id) => id in s.requests
  }

  /** One index read, or the end of the key list. */
  function AfterList(stores: Stores, q: Question, p: Phase): Phase
    requires p.Listing?
  {
    match SubjectKeys(q.username, q.groups)
    case Err(_) => Failed
    case Ok(keys) =>
      if p.next < |keys| then
        Listing(p.generation, p.next + 1, Override(p.found, ListIndexed(stores, ReflectionSubjectIndex, keys[p.next])))
      else Checking(p.generation, p.found, {})
  }

  /** One role read, or the end of the bindings. */
  function AfterCheck(stores: Stores, q: Question, p: Phase, b: RoleBinding): Phase
    requires p.Checking?
  {
    if p.left == {} then Resolving(p.generation, SortedList(p.granted), 0, {})
    else Checking(p.generation, p.left - {b}, p.granted + if Grants(stores, b, q) then {b.namespace} else {})
  }

  function TenantOf(stores: Stores, name: string): set<string> {
    if name in stores.namespaces && TenantName(stores.namespaces[name]) != "" then {TenantName(stores.namespaces[name])} else {}
  }

  /** One namespace read, or the end of the namespaces. */
  function AfterResolve(stores: Stores, p: Phase): Phase
    requires p.Resolving?
  {
    if p.next < |p.names| then p.(next := p.next + 1, tenants := p.tenants + TenantOf(stores, p.names[p.next]))
    else Storing(p.generation, SortedList(p.tenants))
  }

  ghost function Apply(s: State, a: Action): State
    requires Enabled(s, a)
  {
    match a
    case Write(kind, stores) => s.(stores := stores, pending := s.pending[kind := Pending(s, kind) + 1])
    case Deliver(kind) => s.(pending := s.pending[kind := Pending(s, kind) - 1], cache := Invalidated(s.cache))
    case Ask(id, q) =>
      var hit := Lookup(s.cache, ResultKey(q));
      var phase := if hit.Some? then Answered(hit.value) else Missed;
      s.(requests := s.requests[id := Request(q, phase)], asked := s.asked + {q})
    case Capture(id) => SetPhase(s, id, Listing(s.cache.generation, 0, {}))
    case ListNext(id) => SetPhase(s, id, AfterList(s.stores, s.requests[id].question, s.requests[id].phase))
    case Check(id, b) => SetPhase(s, id, AfterCheck(s.stores, s.requests[id].question, s.requests[id].phase, b))
    case ResolveNext(id) => SetPhase(s, id, AfterResolve(s.stores, s.requests[id].phase))
    case Store(id) =>
      var r := s.requests[id];
      SetPhase(s.(cache := Stored(s.cache, ResultKey(r.question), r.phase.result, r.phase.generation)), id, Answered(r.phase.result))
    case Abort(id) => SetPhase(s, id, Failed)
  }

  ghost predicate Next(s: State, s': State) {
    exists a :: Enabled(s, a) && s' == Apply(s, a)
  }

  /** A run of the system: any interleaving of any length. */
  ghost predicate IsRun(run: seq<State>) {
    && |run| > 0 && Initial(run[0])
    && forall i :: 0 <= i < |run| - 1 ==> Next(run[i], run[i + 1])
  }

  // ---------- The invariant ----------

  ghost predicate IsFresh(stores: Stores, q: Question, tenants: seq<string>) {
    Fresh(stores, q) == Ok(tenants)
  }

  /** The request's generation, if it has captured one. */
  function CapturedGeneration(p: Phase): Option<nat> {
    if p.Listing? || p.Checking? || p.Resolving? || p.Storing? then Some(p.generation) else None
  }

  /** All the request has read is what the present stores hold. */
  ghost predicate ReadsCurrent(stores: Stores, q: Question, p: Phase) {
    match p
    case Listing(_, next, found) =>
      var keys := SubjectKeys(q.username, q.groups);
      keys.Ok? ==> next <= |keys.value| && found == BindingsUnder(stores, ReflectionSubjectIndex, keys.value[..next])
    case Checking(_, left, granted) =>
      var keys := SubjectKeys(q.username, q.groups);
      keys.Ok? &&
      var all := BindingsUnder(stores, ReflectionSubjectIndex, keys.value);
      left <= all && granted == GrantedNamespaces(stores, all - left, q)
    case Resolving(_, names, next, tenants) =>
      && next <= |names|
      && ReflectedNamespaces(stores, q) == Ok(Elements(names))
      && tenants == TenantsOf(stores, Elements(names[..next]))
    case Storing(_, result) => IsFresh(stores, q, result)
    case _ => true
  }

  ghost predicate EntryJustified(s: State, key: string) {
    key in s.cache.results ==>
      exists q :: q in s.asked && ResultKey(q) == key && IsFresh(s.stores, q, s.cache.results[key].tenants)
  }

  ghost predicate RequestOk(s: State, r: Request) {
    && r.question in s.asked
    && (CapturedGeneration(r.phase).Some? ==> CapturedGeneration(r.phase).value <= s.cache.generation)
    && (Quiet(s) && CapturedGeneration(r.phase) == Some(s.cache.generation) ==> ReadsCurrent(s.stores, r.question, r.phase))
  }

  ghost predicate Inv(s: State) {
    && ValidStores(s.stores)
    && (forall key :: key in s.cache.results ==> s.cache.results[key].generation == s.cache.generation)
    && (Quiet(s) ==> forall key :: EntryJustified(s, key))
    && (forall id :: id in s.requests ==> RequestOk(s, s.requests[id]))
  }

  // ---------- One read on the present stores ----------

  lemma OverrideCurrent(stores: Stores, found: set<RoleBinding>, items: set<RoleBinding>)
    requires ValidStores(stores) && found <= stores.bindings && items <= stores.bindings
    ensures Override(found, items) == found + items
  {
    forall b, c | b in found && c in items ensures BindingKey(c) == BindingKey(b) ==> c == b {
      BindingKeyInjective(stores, b, c);
    }
  }

  lemma OneMoreKey(stores: Stores, keys: seq<string>, next: nat)
    requires ValidStores(stores) && next < |keys|
    ensures Override(BindingsUnder(stores, ReflectionSubjectIndex, keys[..next]), ListIndexed(stores, ReflectionSubjectIndex, keys[next]))
      == BindingsUnder(stores, ReflectionSubjectIndex, keys[..next + 1])
  {
    var items := ListIndexed(stores, ReflectionSubjectIndex, keys[next]);
    OverrideCurrent(stores, BindingsUnder(stores, ReflectionSubjectIndex, keys[..next]), items);
    BindingsUnderSnoc(stores, ReflectionSubjectIndex, keys[..next], keys[next]);
    assert keys[..next + 1] == keys[..next] + [keys[next]];
  }

  lemma ListStaysCurrent(stores: Stores, q: Question, p: Phase)
    requires ValidStores(stores) && p.Listing? && ReadsCurrent(stores, q, p)
    ensures ReadsCurrent(stores, q, AfterList(stores, q, p))
  {
    if SubjectKeys(q.username, q.groups).Ok? {
      var keys := SubjectKeys(q.username, q.groups).value;
      if p.next < |keys| {
        OneMoreKey(stores, keys, p.next);
      } else {
        assert keys[..p.next] == keys;
        assert p.found - p.found == {};
      }
    }
  }

  lemma CheckStaysCurrent(stores: Stores, q: Question, p: Phase, b: RoleBinding)
    requires p.Checking? && ReadsCurrent(stores, q, p) && (b in p.left || p.left == {})
    ensures ReadsCurrent(stores, q, AfterCheck(stores, q, p, b))
  {
    var all := BindingsUnder(stores, ReflectionSubjectIndex, SubjectKeys(q.username, q.groups).value);
    if p.left == {} {
      var names := SortedList(p.granted);
      assert all - p.left == all;
      assert Elements(names) == p.granted;
      assert Elements(names[..0]) == {};
    } else {
      assert all - (p.left - {b}) == (all - p.left) + {b};
      GrantedSnoc(stores, all - p.left, b, q);
    }
  }

  lemma ResolveStaysCurrent(stores: Stores, q: Question, p: Phase)
    requires p.Resolving? && ReadsCurrent(stores, q, p)
    ensures ReadsCurrent(stores, q, AfterResolve(stores, p))
  {
    if p.next < |p.names| {
      TenantsSnoc(stores, p.names[..p.next], p.names[p.next]);
      assert p.names[..p.next + 1] == p.names[..p.next] + [p.names[p.next]];
    } else {
      assert p.names[..p.next] == p.names;
    }
  }

  // ---------- Every step keeps the invariant ----------

  lemma WriteKeepsInv(s: State, kind: StoreKind, stores: Stores)
    requires Inv(s) && Enabled(s, Write(kind, stores))
    ensures Inv(Apply(s, Write(kind, stores)))
  {
    var s' := Apply(s, Write(kind, stores));
    assert Pending(s', kind) > 0;
    assert !Quiet(s');
    forall id | id in s'.requests ensures RequestOk(s', s'.requests[id]) {
      assert RequestOk(s, s.requests[id]);
    }
  }

  lemma DeliverKeepsInv(s: State, kind: StoreKind)
    requires Inv(s) && Enabled(s, Deliver(kind))
    ensures Inv(Apply(s, Deliver(kind)))
  {
    var s' := Apply(s, Deliver(kind));
    forall id | id in s'.requests ensures RequestOk(s', s'.requests[id]) {
      assert RequestOk(s, s.requests[id]);
    }
  }

  /** A step of one request that leaves stores, notifications and cache alone. */
  lemma PhaseKeepsInv(s: State, id: nat, phase: Phase)
    requires Inv(s) && id in s.requests
    requires var r := Request(s.requests[id].question, phase); RequestOk(s, r)
    ensures Inv(SetPhase(s, id, phase))
  {
    var s' := SetPhase(s, id, phase);
    assert Quiet(s') == Quiet(s) by {
      assert forall kind :: Pending(s', kind) == Pending(s, kind);
    }
    forall i | i in s'.requests ensures RequestOk(s', s'.requests[i]) {
      if i != id { assert RequestOk(s, s.requests[i]); }
    }
    forall key | Quiet(s') ensures EntryJustified(s', key) {
      assert EntryJustified(s, key);
    }
  }

  lemma AskKeepsInv(s: State, id: nat, q: Question)
    requires Inv(s) && Enabled(s, Ask(id, q))
    ensures Inv(Apply(s, Ask(id, q)))
  {
    var s' := Apply(s, Ask(id, q));
    assert Quiet(s') == Quiet(s) by {
      assert forall kind :: Pending(s', kind) == Pending(s, kind);
    }
    forall i | i in s'.requests ensures RequestOk(s', s'.requests[i]) {
      if i != id { assert RequestOk(s, s.requests[i]); }
    }
    forall key | Quiet(s') ensures EntryJustified(s', key) {
      assert EntryJustified(s, key);
    }
  }

  lemma StoreKeepsInv(s: State, id: nat)
    requires Inv(s) && Enabled(s, Store(id))
    ensures Inv(Apply(s, Store(id)))
  {
    var r := s.requests[id];
    var key := ResultKey(r.question);
    var stored := s.(cache := Stored(s.cache, key, r.phase.result, r.phase.generation));
    assert RequestOk(s, r);
    assert Quiet(stored) == Quiet(s) by {
      assert forall kind :: Pending(stored, kind) == Pending(s, kind);
    }
    forall k | Quiet(stored) ensures EntryJustified(stored, k) {
      assert EntryJustified(s, k);
      if k == key && r.phase.generation == s.cache.generation {
        assert IsFresh(s.stores, r.question, r.phase.result);
      }
    }
    forall i | i in stored.requests ensures RequestOk(stored, stored.requests[i]) {
      assert RequestOk(s, s.requests[i]);
    }
    PhaseKeepsInv(stored, id, Answered(r.phase.result));
  }

  lemma StepKeepsInv(s: State, a: Action)
    requires Inv(s) && Enabled(s, a)
    ensures Inv(Apply(s, a))
  {
    match a
    case Write(kind, stores) => WriteKeepsInv(s, kind, stores);
    case Deliver(kind) => DeliverKeepsInv(s, kind);
    case Ask(id, q) => AskKeepsInv(s, id, q);
    case Capture(id) =>
      CaptureReadsCurrent(s.stores, s.requests[id].question, s.cache.generation);
      assert RequestOk(s, s.requests[id]);
      PhaseKeepsInv(s, id, Listing(s.cache.generation, 0, {}));
    case ListNext(id) =>
      var r := s.requests[id];
      assert RequestOk(s, r);
      if ReadsCurrent(s.stores, r.question, r.phase) { ListStaysCurrent(s.stores, r.question, r.phase); }
      PhaseKeepsInv(s, id, AfterList(s.stores, r.question, r.phase));
    case Check(id, b) =>
      var r := s.requests[id];
      assert RequestOk(s, r);
      if ReadsCurrent(s.stores, r.question, r.phase) { CheckStaysCurrent(s.stores, r.question, r.phase, b); }
      PhaseKeepsInv(s, id, AfterCheck(s.stores, r.question, r.phase, b));
    case ResolveNext(id) =>
      var r := s.requests[id];
      assert RequestOk(s, r);
      if ReadsCurrent(s.stores, r.question, r.phase) { ResolveStaysCurrent(s.stores, r.question, r.phase); }
      PhaseKeepsInv(s, id, AfterResolve(s.stores, r.phase));
    case Store(id) => StoreKeepsInv(s, id);
    case Abort(id) =>
      assert RequestOk(s, s.requests[id]);
      PhaseKeepsInv(s, id, Failed);
  }

  lemma CaptureReadsCurrent(stores: Stores, q: Question, generation: nat)
    ensures ReadsCurrent(stores, q, Listing(generation, 0, {}))
  {
    if SubjectKeys(q.username, q.groups).Ok? {
      var keys := SubjectKeys(q.username, q.groups).value;
      assert BindingsUnder(stores, ReflectionSubjectIndex, keys[..0]) == {};
    }
  }

  lemma {:induction false} RunKeepsInv(run: seq<State>, i: nat)
    requires IsRun(run) && i < |run|
    ensures Inv(run[i])
  {
    if i > 0 {
      RunKeepsInv(run, i - 1);
      assert Next(run[i - 1], run[(i - 1) + 1]);
      var a :| Enabled(run[i - 1], a) && run[i] == Apply(run[i - 1], a);
      StepKeepsInv(run[i - 1], a);
    }
  }

  // ---------- Coherence ----------

  /** No answered question among those asked shares the key of this one without being the same question. */
  predicate NoCollision(asked: set<Question>, q: Question) {
    forall p | p in asked :: ResultKey(p) == ResultKey(q) && SubjectKeys(p.username, p.groups).Ok? ==> SameQuestion(p, q)
  }

  /**
   * Over all runs: whenever no notification is outstanding, a cached read gives exactly the fresh answer on the
   * present stores, unless a different question with the same key has been asked.
   */
  lemma CachedEqualsFresh(run: seq<State>, i: nat, q: Question)
    requires IsRun(run) && i < |run| && Quiet(run[i])
    requires NoCollision(run[i].asked, q)
    requires Lookup(run[i].cache, ResultKey(q)).Some?
    ensures Fresh(run[i].stores, q) == Ok(Lookup(run[i].cache, ResultKey(q)).value)
  {
    RunKeepsInv(run, i);
    var s := run[i];
    assert EntryJustified(s, ResultKey(q));
    var p :| p in s.asked && ResultKey(p) == ResultKey(q) && IsFresh(s.stores, p, s.cache.results[ResultKey(q)].tenants);
    SameQuestionAnswers(s.stores, p, q);
  }

  /** A clean question collides with none whose groups have names without a group separator, whatever their usernames. */
  lemma CleanHasNoCollision(asked: set<Question>, q: Question)
    requires Clean(q) && forall p :: p in asked ==> NamedGroups(p)
    ensures NoCollision(asked, q)
  {
    forall p | p in asked && ResultKey(p) == ResultKey(q) ensures SameQuestion(p, q) {
      SharedKeyIff(p, q);
    }
  }

  /** Every entry present in a quiet state is readable and is the fresh answer to a question that was asked. */
  lemma QuietEntriesAreFresh(run: seq<State>, i: nat, key: string)
    requires IsRun(run) && i < |run| && Quiet(run[i]) && key in run[i].cache.results
    ensures Lookup(run[i].cache, key).Some?
    ensures exists q ::
      q in run[i].asked && ResultKey(q) == key && Fresh(run[i].stores, q) == Ok(run[i].cache.results[key].tenants)
  {
    RunKeepsInv(run, i);
    assert EntryJustified(run[i], key);
    var q :| q in run[i].asked && ResultKey(q) == key && IsFresh(run[i].stores, q, run[i].cache.results[key].tenants);
  }

  // ---------- Answers ----------

  /** A hit taken with no notification outstanding is the fresh answer, unless a different question shares its key. */
  lemma HitIsFresh(run: seq<State>, i: nat, id: nat, q: Question)
    requires IsRun(run) && i < |run| && Quiet(run[i]) && Enabled(run[i], Ask(id, q))
    requires NoCollision(run[i].asked, q)
    requires Apply(run[i], Ask(id, q)).requests[id].phase.Answered?
    ensures Fresh(run[i].stores, q) == Ok(Apply(run[i], Ask(id, q)).requests[id].phase.result)
  {
    CachedEqualsFresh(run, i, q);
  }

  /** The request has read nothing but these stores, in this generation. */
  ghost predicate Undisturbed(s: State, id: nat, stores: Stores, q: Question) {
    && s.stores == stores && id in s.requests && s.requests[id].question == q
    && match s.requests[id].phase
       case Missed => true
       case Failed => true
       case Answered(result) => IsFresh(stores, q, result)
       case p => CapturedGeneration(p) == Some(s.cache.generation)
  }

  lemma StepStaysUndisturbed(s: State, a: Action, id: nat, stores: Stores, q: Question)
    requires Inv(s) && Enabled(s, a) && Quiet(s) && Quiet(Apply(s, a)) && Undisturbed(s, id, stores, q)
    ensures Undisturbed(Apply(s, a), id, stores, q)
  {
    assert RequestOk(s, s.requests[id]);
    assert a.Write? ==> Pending(Apply(s, a), a.kind) > 0;
  }

  lemma {:induction false} SpanStaysUndisturbed(run: seq<State>, i: nat, j: nat, id: nat)
    requires IsRun(run) && i <= j < |run| && forall k :: i <= k <= j ==> Quiet(run[k])
    requires id in run[i].requests && run[i].requests[id].phase.Missed?
    ensures Undisturbed(run[j], id, run[i].stores, run[i].requests[id].question)
    decreases j
  {
    if i < j {
      SpanStaysUndisturbed(run, i, j - 1, id);
      RunKeepsInv(run, j - 1);
      assert Next(run[j - 1], run[(j - 1) + 1]);
      var a :| Enabled(run[j - 1], a) && run[j] == Apply(run[j - 1], a);
      StepStaysUndisturbed(run[j - 1], a, id, run[i].stores, run[i].requests[id].question);
    }
  }

  /**
   * A request that missed the cache and was answered while no notification was outstanding all along, and so
   * nothing was written, got the fresh answer, whatever other requests did meanwhile.
   */
  lemma UndisturbedAnswerIsFresh(run: seq<State>, i: nat, j: nat, id: nat)
    requires IsRun(run) && i <= j < |run| && forall k :: i <= k <= j ==> Quiet(run[k])
    requires id in run[i].requests && run[i].requests[id].phase.Missed?
    ensures run[j].stores == run[i].stores && id in run[j].requests
    ensures run[j].requests[id].phase.Answered? ==>
      Fresh(run[j].stores, run[j].requests[id].question) == Ok(run[j].requests[id].phase.result)
  {
    SpanStaysUndisturbed(run, i, j, id);
  }
}
