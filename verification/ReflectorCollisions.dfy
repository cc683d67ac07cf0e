/** Which populations of questions the reflector's cache serves rightly: exactly those without colliding keys. */
module ReflectorCollisions {
  import opened KeyCollisions
  import opened Ordering
  import opened ReflectionKey
  import opened ReflectorCache
  import opened ReflectorRuns
  import opened RoleBindings
  import opened Wrappers

  /** In no run in which only these are asked does one of them read anything but its fresh answer while no notification is outstanding. */
  ghost predicate ServedRightly(population: iset<Question>) {
    forall run: seq<State>, i: nat, q: Question ::
      && IsRun(run) && i < |run| && Quiet(run[i]) && (forall p :: p in run[i].asked ==> p in population)
      && q in population && Lookup(run[i].cache, ResultKey(q)).Some? ==>
      Fresh(run[i].stores, q) == Ok(Lookup(run[i].cache, ResultKey(q)).value)
  }

  /** Any two that share a key, one of them answered, are the same question. */
  ghost predicate CollisionFree(population: iset<Question>) {
    forall p, q :: p in population && q in population && ResultKey(p) == ResultKey(q) && SubjectKeys(p.username, p.groups).Ok? ==>
      SameQuestion(p, q)
  }

  // ---------- A run that caches one answer ----------

  /** The only request so far, about this question, under way on unchanged stores. */
  ghost predicate UnderWay(s: State, stores: Stores, p: Question) {
    && s.stores == stores && s.pending == map[] && s.cache == Cache(0, map[]) && s.asked == {p}
    && 0 in s.requests && s.requests[0].question == p
    && (s.requests[0].phase.Missed? || CapturedGeneration(s.requests[0].phase) == Some(0))
  }

  /** Its answer is in the cache. */
  ghost predicate Cached(s: State, stores: Stores, p: Question) {
    && s.stores == stores && Quiet(s) && s.asked == {p} && Lookup(s.cache, ResultKey(p)).Some?
  }

  /** How many steps of its present phase a request has left, and how many phases. */
  function PhasesLeft(phase: Phase): nat {
    match phase
    case Missed => 5
    case Listing(_, _, _) => 4
    case Checking(_, _, _) => 3
    case Resolving(_, _, _, _) => 2
    case _ => 1
  }

  function StepsLeft(p: Question, phase: Phase): nat {
    match phase
    case Listing(_, next, _) =>
      (match SubjectKeys(p.username, p.groups)
       case Ok(keys) => if next < |keys| then |keys| - next else 0
       case Err(_) => 0)
    case Checking(_, left, _) => |left|
    case Resolving(_, names, next, _) => if next < |names| then |names| - next else 0
    case _ => 0
  }

  /** The next step of the request. */
  ghost function NextStep(phase: Phase): Action {
    match phase
    case Missed => Capture(0)
    case Listing(_, _, _) => ListNext(0)
    case Checking(_, left, _) =>
      Check(0, if b :| b in left then b else RoleBinding("", "", map[], RoleRef("", "", ""), []))
    case Resolving(_, _, _, _) => ResolveNext(0)
    case _ => Store(0)
  }

  lemma Progress(s: State, stores: Stores, p: Question)
    requires UnderWay(s, stores, p) && SubjectKeys(p.username, p.groups).Ok?
    ensures var phase := s.requests[0].phase;
      && Enabled(s, NextStep(phase))
      && var s' := Apply(s, NextStep(phase));
         if phase.Storing? then Cached(s', stores, p)
         else
           && UnderWay(s', stores, p)
           && var phase' := s'.requests[0].phase;
              PhasesLeft(phase') < PhasesLeft(phase)
                || (PhasesLeft(phase') == PhasesLeft(phase) && StepsLeft(p, phase') < StepsLeft(p, phase))
  {
    var phase := s.requests[0].phase;
    if phase.Checking? && phase.left != {} {
      var b := NextStep(phase).binding;
      assert b in phase.left;
      assert |phase.left - {b}| < |phase.left|;
    }
  }

  lemma ExtendRun(run: seq<State>, a: Action)
    requires IsRun(run) && Enabled(run[|run| - 1], a)
    ensures IsRun(run + [Apply(run[|run| - 1], a)])
  {
    var more := run + [Apply(run[|run| - 1], a)];
    forall i | 0 <= i < |more| - 1 ensures Next(more[i], more[i + 1]) {
      if i < |run| - 1 {
        assert more[i] == run[i] && more[i + 1] == run[i + 1];
        assert Next(run[i], run[i + 1]);
      }
    }
  }

  /** A request under way can be run to its end. */
  lemma {:induction false} RunOn(run: seq<State>, stores: Stores, p: Question) returns (more: seq<State>)
    requires IsRun(run) && UnderWay(run[|run| - 1], stores, p) && SubjectKeys(p.username, p.groups).Ok?
    ensures IsRun(more) && Cached(more[|more| - 1], stores, p)
    decreases PhasesLeft(run[|run| - 1].requests[0].phase), StepsLeft(p, run[|run| - 1].requests[0].phase)
  {
    var s := run[|run| - 1];
    var a := NextStep(s.requests[0].phase);
    Progress(s, stores, p);
    ExtendRun(run, a);
    more := run + [Apply(s, a)];
    if !s.requests[0].phase.Storing? {
      more := RunOn(more, stores, p);
    }
  }

  /** Every answered question has its answer cached in some quiet run on any stores. */
  lemma SomeRunCaches(stores: Stores, p: Question) returns (run: seq<State>)
    requires ValidStores(stores) && SubjectKeys(p.username, p.groups).Ok?
    ensures IsRun(run) && Cached(run[|run| - 1], stores, p)
  {
    var s := State(stores, map[], Cache(0, map[]), map[], {});
    assert IsRun([s]);
    ExtendRun([s], Ask(0, p));
    run := RunOn([s] + [Apply(s, Ask(0, p))], stores, p);
  }

  // ---------- The exact condition ----------

  /** Two colliding questions: in some run the one reads the other's answer, which is not its own. */
  lemma CollisionIsServed(p: Question, q: Question) returns (run: seq<State>)
    requires ResultKey(p) == ResultKey(q) && SubjectKeys(p.username, p.groups).Ok? && !SameQuestion(p, q)
    ensures IsRun(run)
    ensures var s := run[|run| - 1];
      && Quiet(s) && s.asked == {p} && Lookup(s.cache, ResultKey(q)).Some?
      && Fresh(s.stores, q) != Ok(Lookup(s.cache, ResultKey(q)).value)
  {
    var stores := StoresTellApart(p, q);
    run := SomeRunCaches(stores, p);
    SameQuestionIsItself(p);
    CachedEqualsFresh(run, |run| - 1, p);
  }

  lemma SameQuestionIsItself(p: Question)
    ensures SameQuestion(p, p)
  {
  }

  /** Over all runs, the cache serves a population of questions rightly exactly when no two of them collide. */
  lemma ServedRightlyIff(population: iset<Question>)
    ensures ServedRightly(population) <==> CollisionFree(population)
  {
    if CollisionFree(population) {
      forall run: seq<State>, i: nat, q: Question |
        && IsRun(run) && i < |run| && Quiet(run[i]) && (forall p :: p in run[i].asked ==> p in population)
        && q in population && Lookup(run[i].cache, ResultKey(q)).Some?
        ensures Fresh(run[i].stores, q) == Ok(Lookup(run[i].cache, ResultKey(q)).value)
      {
        CachedEqualsFresh(run, i, q);
      }
    } else {
      var p, q :| p in population && q in population && ResultKey(p) == ResultKey(q)
        && SubjectKeys(p.username, p.groups).Ok? && !SameQuestion(p, q);
      var run := CollisionIsServed(p, q);
      assert 0 <= |run| - 1 < |run|;
    }
  }

  /** All clean questions together are served rightly. */
  lemma {:induction false} CleanAreServedRightly()
    ensures ServedRightly(iset q: Question | Clean(q))
  {
    var population := iset q: Question | Clean(q);
    forall p, q | p in population && q in population && ResultKey(p) == ResultKey(q) ensures SameQuestion(p, q) {
      SharedKeyIff(p, q);
    }
    ServedRightlyIff(population);
  }

  lemma SameQuestionSymmetric(p: Question, q: Question)
    ensures SameQuestion(p, q) == SameQuestion(q, p)
  {
  }

  /** A clean question and another with its key are served rightly exactly when the other's groups are named, or both are refused. */
  lemma {:induction false} PairServedRightlyIff(p: Question, q: Question)
    requires Clean(q) && ResultKey(p) == ResultKey(q)
    ensures ServedRightly(iset{p, q}) <==> NamedGroups(p) || SubjectKeys(q.username, q.groups).Err?
  {
    SharedRequest(p, q);
    SharedKeyIff(p, q);
    SameQuestionIsItself(p);
    SameQuestionIsItself(q);
    SameQuestionSymmetric(p, q);
    ServedRightlyIff(iset{p, q});
    assert p in iset{p, q} && q in iset{p, q};
    if SameQuestion(p, q) {
      assert CollisionFree(iset{p, q});
    }
  }
}
