/** Label requirements, the merged LIST selector and the first-match GET selector. */
module Selectors {
  import opened Kubernetes
  import opened Text
  import opened Wrappers

  type Labels = map<string, string>

  datatype Operator = In | Equals | DoubleEquals | NotIn | NotEquals | Exists | DoesNotExist

  datatype Requirement = Requirement(key: string, op: Operator, values: set<string>)

  datatype SelectorError = InvalidRequirement

  /** `Requirement.Matches`. */
  predicate Matches(r: Requirement, labels: Labels) {
    match r.op
    case In | Equals | DoubleEquals => r.key in labels && labels[r.key] in r.values
    case NotIn | NotEquals => r.key in labels ==> labels[r.key] !in r.values
    case Exists => r.key in labels
    case DoesNotExist => r.key !in labels
  }

  function OperatorText(op: Operator): string {
    match op
    case In => "in"
    case Equals => "="
    case DoubleEquals => "=="
    case NotIn => "notin"
    case NotEquals => "!="
    case Exists => "exists"
    case DoesNotExist => "!"
  }

  function ParseOperator(text: string): Option<Operator> {
    if text == "in" then Some(In)
    else if text == "=" then Some(Equals)
    else if text == "==" then Some(DoubleEquals)
    else if text == "notin" then Some(NotIn)
    else if text == "!=" then Some(NotEquals)
    else if text == "exists" then Some(Exists)
    else if text == "!" then Some(DoesNotExist)
    else None
  }

  predicate RightCount(op: Operator, values: set<string>) {
    match op
    case In | NotIn => values != {}
    case Equals | DoubleEquals | NotEquals => |values| == 1
    case Exists | DoesNotExist => values == {}
  }

  /** `labels.NewRequirement`: the only way a requirement comes into being. */
  function NewRequirement(key: string, op: string, values: set<string>): Result<Requirement, SelectorError> {
    var parsed := ParseOperator(op);
    if IsLabelKey(key) && parsed.Some? && RightCount(parsed.value, values) && forall v | v in values :: IsLabelValue(v) then
      Ok(Requirement(key, parsed.value, values))
    else Err(InvalidRequirement)
  }

  /** The requirement could have been built. */
  predicate Valid(r: Requirement) { NewRequirement(r.key, OperatorText(r.op), r.values) == Ok(r) }

  predicate AllValid(rs: seq<Requirement>) { forall i :: 0 <= i < |rs| ==> Valid(rs[i]) }

  /** A selector matches when all its requirements do. */
  predicate SelectorMatches(selector: seq<Requirement>, labels: Labels) {
    forall i :: 0 <= i < |selector| ==> Matches(selector[i], labels)
  }

  // ---------- The merged selector ----------

  /** The operator requirements are grouped under: equality goes with In, inequality with NotIn. */
  function Normal(op: Operator): Operator {
    match op
    case Equals | DoubleEquals | In => In
    case NotEquals | NotIn => NotIn
    case _ => op
  }

  predicate InLike(r: Requirement) { Normal(r.op) == In }

  function GroupText(r: Requirement): string { r.key + [':'] + OperatorText(Normal(r.op)) }

  /** Some In-like requirement on the key matches. */
  predicate SomeInLike(rs: seq<Requirement>, key: string, labels: Labels) {
    exists r | r in rs :: InLike(r) && r.key == key && Matches(r, labels)
  }

  /** One requirement's share in the merged selector. */
  predicate Met(rs: seq<Requirement>, r: Requirement, labels: Labels) {
    if InLike(r) then SomeInLike(rs, r.key, labels) else Matches(r, labels)
  }

  /** What the merged selector is for: per key one of the In-like requirements, and all of the others. */
  predicate MergedMatches(rs: seq<Requirement>, labels: Labels) {
    forall r | r in rs :: Met(rs, r, labels)
  }

  /** The union of the values in one group. */
  function GroupValues(rs: seq<Requirement>, group: string): set<string> {
    set i, v | 0 <= i < |rs| && GroupText(rs[i]) == group && v in rs[i].values :: v
  }

  function Groups(rs: seq<Requirement>): set<string> { set i | 0 <= i < |rs| :: GroupText(rs[i]) }

  lemma GroupsSnoc(rs: seq<Requirement>, r: Requirement, group: string)
    ensures Groups(rs + [r]) == Groups(rs) + {GroupText(r)}
    ensures GroupValues(rs + [r], group) ==
      GroupValues(rs, group) + (if GroupText(r) == group then r.values else {})
    ensures group !in Groups(rs) ==> GroupValues(rs, group) == {}
  {
    var all := rs + [r];
    assert all[|rs|] == r && forall i :: 0 <= i < |rs| ==> all[i] == rs[i];
    forall g | g in Groups(rs) + {GroupText(r)} ensures g in Groups(all) {
      if g in Groups(rs) {
        var i :| 0 <= i < |rs| && GroupText(rs[i]) == g;
        assert GroupText(all[i]) == g;
      } else {
        assert GroupText(all[|rs|]) == g;
      }
    }
    forall v | v in GroupValues(rs, group) ensures v in GroupValues(all, group) {
      var i :| 0 <= i < |rs| && GroupText(rs[i]) == group && v in rs[i].values;
      assert GroupText(all[i]) == group;
    }
    if GroupText(r) == group {
      forall v | v in r.values ensures v in GroupValues(all, group) {
        assert GroupText(all[|rs|]) == group && v in all[|rs|].values;
      }
    }
  }

  lemma OperatorTextParses(op: Operator)
    ensures ParseOperator(OperatorText(op)) == Some(op) && ':' !in OperatorText(op)
  {
  }

  /** The group text of a valid requirement splits back into its key and normal operator. */
  lemma GroupTextSplits(r: Requirement)
    requires Valid(r)
    ensures Split(GroupText(r), ':') == [r.key, OperatorText(Normal(r.op))]
    ensures ParseOperator(OperatorText(Normal(r.op))) == Some(Normal(r.op))
  {
    OperatorTextParses(Normal(r.op));
    LabelKeyHasNoColon(r.key);
    SplitHead(r.key, OperatorText(Normal(r.op)), ':');
    SplitHead(OperatorText(Normal(r.op)), [], ':');
  }

  /** Two valid requirements share a group iff they share the key and the normal operator. */
  lemma SameGroup(r: Requirement, s: Requirement)
    requires Valid(r) && Valid(s)
    ensures GroupText(r) == GroupText(s) <==> r.key == s.key && Normal(r.op) == Normal(s.op)
  {
    GroupTextSplits(r);
    GroupTextSplits(s);
  }

  /** The requirement a group is turned into. */
  function GroupRequirement(rs: seq<Requirement>, group: string): Result<Requirement, SelectorError> {
    var parts := Split(group, ':');
    if |parts| < 2 then Err(InvalidRequirement) else NewRequirement(parts[0], parts[1], GroupValues(rs, group))
  }

  lemma GroupValuesAreLabels(rs: seq<Requirement>, group: string)
    requires AllValid(rs)
    ensures forall v :: v in GroupValues(rs, group) ==> IsLabelValue(v)
  {
    forall v | v in GroupValues(rs, group) ensures IsLabelValue(v) {
      var j :| 0 <= j < |rs| && GroupText(rs[j]) == group && v in rs[j].values;
      assert Valid(rs[j]);
    }
  }

  /** A valid requirement has values or not as its normal operator asks. */
  lemma ValidCount(r: Requirement)
    requires Valid(r)
    ensures r.values != {} <==> Normal(r.op) == In || Normal(r.op) == NotIn
  {
    assert r.op.Equals? || r.op.DoubleEquals? || r.op.NotEquals? ==> |r.values| == 1;
  }

  /** A group of valid requirements has as many values as its operator asks. */
  lemma GroupCount(rs: seq<Requirement>, i: nat)
    requires AllValid(rs) && i < |rs|
    ensures RightCount(Normal(rs[i].op), GroupValues(rs, GroupText(rs[i])))
  {
    var r, group := rs[i], GroupText(rs[i]);
    assert Valid(r);
    ValidCount(r);
    if r.values != {} {
      var v :| v in r.values;
      assert v in GroupValues(rs, group);
    }
    forall v | v in GroupValues(rs, group) ensures r.values != {} {
      var j :| 0 <= j < |rs| && GroupText(rs[j]) == group && v in rs[j].values;
      assert Valid(rs[j]);
      ValidCount(rs[j]);
      SameGroup(r, rs[j]);
    }
  }

  lemma GroupIsValid(rs: seq<Requirement>, i: nat)
    requires AllValid(rs) && i < |rs|
    ensures GroupRequirement(rs, GroupText(rs[i])) ==
      Ok(Requirement(rs[i].key, Normal(rs[i].op), GroupValues(rs, GroupText(rs[i]))))
  {
    assert Valid(rs[i]);
    GroupTextSplits(rs[i]);
    GroupCount(rs, i);
    GroupValuesAreLabels(rs, GroupText(rs[i]));
  }

  /** A group matches when one of its requirements does, for In; when all of them do, otherwise. */
  lemma GroupMeaning(rs: seq<Requirement>, r: Requirement, labels: Labels)
    requires AllValid(rs) && r in rs
    ensures var merged := Requirement(r.key, Normal(r.op), GroupValues(rs, GroupText(r)));
      Matches(merged, labels) <==>
        if InLike(r) then SomeInLike(rs, r.key, labels)
        else forall s | s in rs && GroupText(s) == GroupText(r) :: Matches(s, labels)
  {
    var group := GroupText(r);
    forall s | s in rs ensures GroupText(s) == group <==> s.key == r.key && Normal(s.op) == Normal(r.op) {
      assert Valid(r) && Valid(s);
      SameGroup(s, r);
    }
    if r.key in labels {
      GroupValueFrom(rs, group, labels[r.key]);
    }
  }

  lemma GroupValueFrom(rs: seq<Requirement>, group: string, v: string)
    ensures v in GroupValues(rs, group) <==> exists s :: s in rs && GroupText(s) == group && v in s.values
  {
    if v in GroupValues(rs, group) {
      var i :| 0 <= i < |rs| && GroupText(rs[i]) == group && v in rs[i].values;
      assert rs[i] in rs;
    }
    if s :| s in rs && GroupText(s) == group && v in s.values {
      var i :| 0 <= i < |rs| && rs[i] == s;
    }
  }

  /** The values per group, as the first loop collects them. */
  ghost predicate Collected(rs: seq<Requirement>, m: map<string, set<string>>) {
    m.Keys == Groups(rs) && forall g :: g in m ==> m[g] == GroupValues(rs, g)
  }

  method CollectGroups(rs: seq<Requirement>) returns (requirementsMap: map<string, set<string>>)
    ensures Collected(rs, requirementsMap)
  {
    requirementsMap := map[];
    for i := 0 to |rs|
      invariant Collected(rs[..i], requirementsMap)
    {
      var key := GroupText(rs[i]);
      assert rs[..i + 1] == rs[..i] + [rs[i]];
      forall g { GroupsSnoc(rs[..i], rs[i], g); }
      if key !in requirementsMap {
        requirementsMap := requirementsMap[key := rs[i].values];
      } else {
        requirementsMap := requirementsMap[key := requirementsMap[key] + rs[i].values];
      }
    }
    assert rs[..|rs|] == rs;
  }

  /** The requirements of these groups, in whatever order. */
  ghost predicate GroupSelector(rs: seq<Requirement>, groups: set<string>, selector: seq<Requirement>) {
    && (forall r :: r in selector ==> exists g :: g in groups && GroupRequirement(rs, g) == Ok(r))
    && (forall g :: g in groups ==> GroupRequirement(rs, g).Ok? && GroupRequirement(rs, g).value in selector)
  }

  lemma GroupOf(rs: seq<Requirement>, g: string) returns (r: Requirement)
    requires AllValid(rs) && g in Groups(rs)
    ensures r in rs && GroupText(r) == g
    ensures |Split(g, ':')| == 2
    ensures GroupRequirement(rs, g) == Ok(Requirement(r.key, Normal(r.op), GroupValues(rs, g)))
  {
    var i :| 0 <= i < |rs| && GroupText(rs[i]) == g;
    r := rs[i];
    GroupTextSplits(r);
    GroupIsValid(rs, i);
  }

  lemma GroupTextHasTwoParts(rs: seq<Requirement>, g: string)
    requires g in Groups(rs)
    ensures |Split(g, ':')| >= 2
  {
    var i :| 0 <= i < |rs| && GroupText(rs[i]) == g;
    assert g[|rs[i].key|] == ':';
    SplitCount(g, ':');
  }

  /**
   * `HandleListSelector`. It fails iff some merged group is no valid requirement, which never happens for
   * requirements that are valid themselves; whatever order the groups come in, the selector means the same.
   */
  method HandleListSelector(rs: seq<Requirement>) returns (selector: Result<seq<Requirement>, SelectorError>)
    ensures selector.Err? <==> exists g | g in Groups(rs) :: GroupRequirement(rs, g).Err?
    ensures AllValid(rs) ==> selector.Ok?
    ensures AllValid(rs) ==> forall labels :: SelectorMatches(selector.value, labels) <==> MergedMatches(rs, labels)
  {
    var requirementsMap := CollectGroups(rs);
    var result: seq<Requirement> := [];
    var rest := requirementsMap.Keys;
    while rest != {}
      invariant rest <= Groups(rs)
      invariant GroupSelector(rs, Groups(rs) - rest, result)
      decreases rest
    {
      var k :| k in rest;
      GroupTextHasTwoParts(rs, k);
      var parts := Split(k, ':');
      var requirement := NewRequirement(parts[0], parts[1], requirementsMap[k]);
      assert requirement == GroupRequirement(rs, k);
      if requirement.Err? {
        GroupsOfValidAreValid(rs, k);
        return Err(requirement.error);
      }
      SelectOne(rs, Groups(rs) - rest, result, k);
      result := result + [requirement.value];
      assert Groups(rs) - (rest - {k}) == Groups(rs) - rest + {k};
      rest := rest - {k};
    }
    assert Groups(rs) - {} == Groups(rs);
    if AllValid(rs) {
      forall labels ensures SelectorMatches(result, labels) <==> MergedMatches(rs, labels) {
        SelectorIsMerged(rs, result, labels);
        MergedIsSelector(rs, result, labels);
      }
    }
    selector := Ok(result);
  }

  lemma GroupsOfValidAreValid(rs: seq<Requirement>, g: string)
    requires g in Groups(rs)
    ensures AllValid(rs) ==> GroupRequirement(rs, g).Ok?
  {
    if AllValid(rs) { var _ := GroupOf(rs, g); }
  }

  lemma SelectOne(rs: seq<Requirement>, groups: set<string>, selector: seq<Requirement>, g: string)
    requires GroupSelector(rs, groups, selector) && GroupRequirement(rs, g).Ok?
    ensures GroupSelector(rs, groups + {g}, selector + [GroupRequirement(rs, g).value])
  {
  }

  lemma SelectorIsMerged(rs: seq<Requirement>, selector: seq<Requirement>, labels: Labels)
    requires AllValid(rs) && GroupSelector(rs, Groups(rs), selector)
    ensures SelectorMatches(selector, labels) ==> MergedMatches(rs, labels)
  {
    if SelectorMatches(selector, labels) {
      forall r | r in rs ensures Met(rs, r, labels) {
        var i :| 0 <= i < |rs| && rs[i] == r;
        GroupIsValid(rs, i);
        GroupMeaning(rs, r, labels);
        var merged := GroupRequirement(rs, GroupText(r)).value;
        assert GroupText(r) in Groups(rs);
        assert merged in selector && Matches(merged, labels);
      }
    }
  }

  lemma MergedIsSelector(rs: seq<Requirement>, selector: seq<Requirement>, labels: Labels)
    requires AllValid(rs) && GroupSelector(rs, Groups(rs), selector)
    ensures MergedMatches(rs, labels) ==> SelectorMatches(selector, labels)
  {
    if MergedMatches(rs, labels) {
      forall k | 0 <= k < |selector| ensures Matches(selector[k], labels) {
        assert selector[k] in selector;
        var g :| g in Groups(rs) && GroupRequirement(rs, g) == Ok(selector[k]);
        var r := GroupOf(rs, g);
        GroupMeaning(rs, r, labels);
        assert Met(rs, r, labels);
        forall s | s in rs && GroupText(s) == g && !InLike(r) ensures Matches(s, labels) {
          assert Valid(r) && Valid(s);
          SameGroup(r, s);
          assert Met(rs, s, labels);
        }
      }
    }
  }

  /** The merged meaning depends on the requirements only as a set: not on order, not on repetitions. */
  lemma MergedBySet(rs: seq<Requirement>, ss: seq<Requirement>, labels: Labels)
    requires forall r :: r in rs <==> r in ss
    ensures MergedMatches(rs, labels) <==> MergedMatches(ss, labels)
  {
    assert forall r :: r in rs ==> Met(rs, r, labels) == Met(ss, r, labels);
  }

  // ---------- The first-match selector ----------

  predicate SomeMatches(rs: seq<Requirement>, labels: Labels) {
    exists i :: 0 <= i < |rs| && Matches(rs[i], labels)
  }

  /** The first requirement that matches, alone. */
  function FirstMatching(rs: seq<Requirement>, labels: Labels): Option<seq<Requirement>> {
    if rs == [] then None
    else if Matches(rs[0], labels) then Some([rs[0]])
    else FirstMatching(rs[1..], labels)
  }

  /** There is one iff some requirement matches; it is one of them, it matches, and none before it does. */
  lemma {:induction false} FirstMatchingFacts(rs: seq<Requirement>, labels: Labels)
    ensures FirstMatching(rs, labels).Some? <==> SomeMatches(rs, labels)
    ensures FirstMatching(rs, labels).Some? ==> SelectorMatches(FirstMatching(rs, labels).value, labels)
    ensures FirstMatching(rs, labels).Some? ==>
      exists i :: 0 <= i < |rs| && FirstMatching(rs, labels).value == [rs[i]] && !SomeMatches(rs[..i], labels)
  {
    if rs != [] && !Matches(rs[0], labels) {
      var rest := rs[1..];
      FirstMatchingFacts(rest, labels);
      if i :| 0 <= i < |rs| && Matches(rs[i], labels) {
        assert Matches(rest[i - 1], labels);
      }
      if SomeMatches(rest, labels) {
        var i :| 0 <= i < |rest| && FirstMatching(rest, labels).value == [rest[i]] && !SomeMatches(rest[..i], labels);
        assert rs[i + 1] == rest[i];
        var before := rs[..i + 1];
        forall j | 0 <= j < |before| ensures !Matches(before[j], labels) {
          if j > 0 { assert rest[..i][j - 1] == rs[j]; }
        }
      }
    } else if rs != [] {
      assert !SomeMatches(rs[..0], labels);
    }
  }

  datatype GetError = ObjectNotFound

  /** `HandleGetSelector`: not found when the object is missing or no requirement matches it. */
  method HandleGetSelector(target: Option<Labels>, rs: seq<Requirement>) returns (r: Result<seq<Requirement>, GetError>)
    ensures r.Ok? <==> target.Some? && SomeMatches(rs, target.value)
    ensures r.Ok? ==> Some(r.value) == FirstMatching(rs, target.value)
  {
    if target.None? {
      return Err(ObjectNotFound);
    }
    var found := FirstMatch(rs, target.value);
    FirstMatchingFacts(rs, target.value);
    if found.Some? {
      return Ok(found.value);
    }
    r := Err(ObjectNotFound);
  }

  method FirstMatch(rs: seq<Requirement>, labels: Labels) returns (selector: Option<seq<Requirement>>)
    ensures selector == FirstMatching(rs, labels)
  {
    for i := 0 to |rs|
      invariant FirstMatching(rs, labels) == FirstMatching(rs[i..], labels)
    {
      if Matches(rs[i], labels) {
        return Some([rs[i]]);
      }
      assert rs[i..][1..] == rs[i + 1..];
    }
    selector := None;
  }

  /** An object the merged selector of some requirements matches is matched by one of them. */
  lemma MergedImpliesSome(rs: seq<Requirement>, labels: Labels)
    requires rs != [] && MergedMatches(rs, labels)
    ensures SomeMatches(rs, labels)
  {
    assert rs[0] in rs && Met(rs, rs[0], labels);
    var r :| r in rs && Matches(r, labels);
    var i :| 0 <= i < |rs| && rs[i] == r;
  }

  // ---------- Requirements no labels escape ----------

  predicate NotInLike(r: Requirement) { Normal(r.op) == NotIn }

  /** The requirement matches whenever its key has this value. */
  predicate HoldsFor(r: Requirement, value: string) {
    if InLike(r) then value in r.values else if NotInLike(r) then value !in r.values else r.op.Exists?
  }

  /** Some requirement on the key matches labels without it. */
  predicate CoversAbsent(rs: seq<Requirement>, key: string) {
    exists r | r in rs :: r.key == key && (NotInLike(r) || r.op.DoesNotExist?)
  }

  /** The values the In-like requirements on the key ask for. */
  function Included(rs: seq<Requirement>, key: string): set<string> {
    set r, v | r in rs && r.key == key && InLike(r) && v in r.values :: v
  }

  /** The values all NotIn-like requirements on the key, of which there are some, rule out. */
  function Excluded(rs: seq<Requirement>, key: string): set<string> {
    set r, v | r in rs && r.key == key && NotInLike(r) && v in r.values
      && (forall s | s in rs && s.key == key && NotInLike(s) :: v in s.values) :: v
  }

  /** Whatever value the key has, some requirement on it matches: Exists, or NotIn with In for all it rules out. */
  predicate CoversPresent(rs: seq<Requirement>, key: string) {
    || (exists r | r in rs :: r.key == key && r.op.Exists?)
    || ((exists r | r in rs :: r.key == key && NotInLike(r)) && Excluded(rs, key) <= Included(rs, key))
  }

  /** On some key the requirements leave labels that carry the given key no way out. */
  predicate Inescapable(rs: seq<Requirement>, carried: string) {
    exists r | r in rs :: CoversPresent(rs, r.key) && (r.key == carried || CoversAbsent(rs, r.key))
  }

  ghost predicate HeldBy(rs: seq<Requirement>, key: string, value: string) {
    exists r :: r in rs && r.key == key && HoldsFor(r, value)
  }

  lemma PresentIsHeld(rs: seq<Requirement>, key: string, value: string)
    requires CoversPresent(rs, key)
    ensures HeldBy(rs, key, value)
  {
    if r :| r in rs && r.key == key && r.op.Exists? {
      assert HoldsFor(r, value);
    } else if r :| r in rs && r.key == key && NotInLike(r) && value !in r.values {
      assert HoldsFor(r, value);
    } else {
      assert value in Excluded(rs, key);
      assert value in Included(rs, key);
    }
  }

  lemma UncoveredIsFree(rs: seq<Requirement>, key: string) returns (value: string)
    requires !CoversPresent(rs, key)
    ensures !HeldBy(rs, key, value)
  {
    if exists r | r in rs :: r.key == key && NotInLike(r) {
      value :| value in Excluded(rs, key) && value !in Included(rs, key);
    } else {
      value := FreshValue(Included(rs, key));
      assert value !in Included(rs, key);
    }
  }

  /** A value no requirement on the key holds for, if there is one. */
  ghost function FreeValue(rs: seq<Requirement>, key: string): string {
    if v :| !HeldBy(rs, key, v) then v else ""
  }

  /** The labels that carry the key and dodge what they can. */
  ghost function Dodging(rs: seq<Requirement>, carried: string): Labels {
    var keys := (set r | r in rs :: r.key) + {carried};
    map key | key in keys && (key == carried || CoversAbsent(rs, key)) :: FreeValue(rs, key)
  }

  lemma DodgingEscapes(rs: seq<Requirement>, carried: string, r: Requirement)
    requires !Inescapable(rs, carried) && r in rs
    ensures !Matches(r, Dodging(rs, carried))
  {
    var labels := Dodging(rs, carried);
    if r.key in labels {
      assert !CoversPresent(rs, r.key);
      var value := UncoveredIsFree(rs, r.key);
      assert !HeldBy(rs, r.key, labels[r.key]);
      assert !HoldsFor(r, labels[r.key]);
    }
  }

  /** All labels that carry a key match some of the requirements exactly when these are inescapable. */
  lemma InescapableIff(rs: seq<Requirement>, carried: string)
    ensures (forall labels: Labels :: carried in labels ==> SomeMatches(rs, labels)) <==> Inescapable(rs, carried)
  {
    if Inescapable(rs, carried) {
      forall labels: Labels | carried in labels ensures SomeMatches(rs, labels) {
        CarriedIsMatched(rs, carried, labels);
      }
    } else {
      var labels := Dodging(rs, carried);
      forall i | 0 <= i < |rs| ensures !Matches(rs[i], labels) {
        DodgingEscapes(rs, carried, rs[i]);
      }
      assert carried in labels && !SomeMatches(rs, labels);
    }
  }

  lemma CarriedIsMatched(rs: seq<Requirement>, carried: string, labels: Labels)
    requires Inescapable(rs, carried) && carried in labels
    ensures SomeMatches(rs, labels)
  {
    var r :| r in rs && CoversPresent(rs, r.key) && (r.key == carried || CoversAbsent(rs, r.key));
    var s: Requirement;
    if r.key in labels {
      PresentIsHeld(rs, r.key, labels[r.key]);
      s :| s in rs && s.key == r.key && HoldsFor(s, labels[r.key]);
    } else {
      s :| s in rs && s.key == r.key && (NotInLike(s) || s.op.DoesNotExist?);
    }
    assert Matches(s, labels);
    var i :| 0 <= i < |rs| && rs[i] == s;
  }
}
