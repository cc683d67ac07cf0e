/** Who a request acts as: authentication, impersonation with its access reviews, and the deferred identity changes. */
module Identity {
  import opened Kubernetes
  import opened Wrappers

  datatype User = User(username: string, groups: seq<string>)

  datatype IdentityError = Unauthenticated | ReviewFailed | NotAllowed(review: Review)

  // ---------- Authentication ----------

  datatype AuthType = BearerToken | TlsCertificate | Anonymous | XForwardedClientCert

  /** What each provider makes of the request: a token review, the TLS peer certificate, the forwarded certificate. */
  datatype Providers = Providers(bearer: Option<User>, tls: Option<User>, forwarded: Option<User>)

  function Provided(p: Providers, authType: AuthType): Option<User> {
    match authType
    case BearerToken => p.bearer
    case TlsCertificate => p.tls
    case XForwardedClientCert => p.forwarded
    case Anonymous => None
  }

  /** The first configured provider that yields a user decides. */
  method Authenticate(authTypes: seq<AuthType>, p: Providers) returns (r: Result<User, IdentityError>)
    ensures r.Ok? <==> exists i :: 0 <= i < |authTypes| && Provided(p, authTypes[i]).Some?
    ensures r.Ok? ==> exists i ::
      && 0 <= i < |authTypes| && Provided(p, authTypes[i]) == Some(r.value)
      && forall j :: 0 <= j < i ==> Provided(p, authTypes[j]).None?
    ensures r.Err? ==> r.error == Unauthenticated
    ensures r.Ok? ==>
      || (BearerToken in authTypes && p.bearer == Some(r.value))
      || (TlsCertificate in authTypes && p.tls == Some(r.value))
      || (XForwardedClientCert in authTypes && p.forwarded == Some(r.value))
    ensures r.Err? ==>
      && (BearerToken in authTypes ==> p.bearer.None?)
      && (TlsCertificate in authTypes ==> p.tls.None?)
      && (XForwardedClientCert in authTypes ==> p.forwarded.None?)
  {
    for i := 0 to |authTypes|
      invariant forall j :: 0 <= j < i ==> Provided(p, authTypes[j]).None?
    {
      var user: Option<User> := None;
      match authTypes[i] {
        case BearerToken => user := p.bearer;
        case TlsCertificate => user := p.tls;
        case XForwardedClientCert => user := p.forwarded;
        case Anonymous =>
      }
      if user.Some? {
        return Ok(user.value);
      }
    }
    r := Err(Unauthenticated);
  }

  // ---------- Impersonation headers ----------

  type Headers = map<string, seq<string>>

  const USER_HEADER := "Impersonate-User"
  const GROUP_HEADER := "Impersonate-Group"

  function HeaderValues(headers: Headers, name: string): seq<string> {
    if name in headers then headers[name] else []
  }

  function ImpersonatingUser(headers: Headers): string {
    var values := HeaderValues(headers, USER_HEADER);
    if values == [] then "" else values[0]
  }

  /** The group filters: keep what the one matches, drop what the other matches. Regular expressions are predicates. */
  datatype Filters = Filters(keep: Option<string -> bool>, ignore: Option<string -> bool>)

  predicate Survives(f: Filters, group: string) {
    (f.keep.Some? ==> f.keep.value(group)) && (f.ignore.Some? ==> !f.ignore.value(group))
  }

  /** The groups that survive the filters, in order. */
  function Surviving(f: Filters, groups: seq<string>): seq<string> {
    if groups == [] then []
    else
      var last := groups[|groups| - 1];
      Surviving(f, groups[..|groups| - 1]) + (if Survives(f, last) then [last] else [])
  }

  lemma {:induction false} SurvivingMembers(f: Filters, groups: seq<string>, group: string)
    ensures group in Surviving(f, groups) <==>
      && group in groups
      && (f.keep.Some? ==> f.keep.value(group))
      && (f.ignore.Some? ==> !f.ignore.value(group))
  {
    if groups != [] {
      SurvivingMembers(f, groups[..|groups| - 1], group);
      assert groups == groups[..|groups| - 1] + [groups[|groups| - 1]];
    }
  }

  method FilterGroups(groups: seq<string>, keep: string -> bool) returns (filtered: seq<string>)
    ensures filtered == Surviving(Filters(Some(keep), None), groups)
  {
    filtered := [];
    for i := 0 to |groups|
      invariant filtered == Surviving(Filters(Some(keep), None), groups[..i])
    {
      assert groups[..i + 1][..i] == groups[..i];
      if keep(groups[i]) {
        filtered := filtered + [groups[i]];
      }
    }
    assert groups[..|groups|] == groups;
  }

  method IgnoreGroups(groups: seq<string>, ignore: string -> bool) returns (kept: seq<string>)
    ensures kept == Surviving(Filters(None, Some(ignore)), groups)
  {
    kept := [];
    for i := 0 to |groups|
      invariant kept == Surviving(Filters(None, Some(ignore)), groups[..i])
    {
      assert groups[..i + 1][..i] == groups[..i];
      if !ignore(groups[i]) {
        kept := kept + [groups[i]];
      }
    }
    assert groups[..|groups|] == groups;
  }

  /** Filtering one way and then the other is filtering both ways at once. */
  lemma {:induction false} FiltersCompose(f: Filters, groups: seq<string>)
    ensures Surviving(Filters(None, f.ignore), Surviving(Filters(f.keep, None), groups)) == Surviving(f, groups)
  {
    if groups != [] {
      var front, last := groups[..|groups| - 1], groups[|groups| - 1];
      FiltersCompose(f, front);
      var kept := Surviving(Filters(f.keep, None), front);
      assert (kept + [last])[..|kept|] == kept;
      assert Surviving(Filters(f.keep, None), groups) == if Survives(Filters(f.keep, None), last) then kept + [last] else kept;
    }
  }

  lemma {:induction false} NoFilter(groups: seq<string>)
    ensures Surviving(Filters(None, None), groups) == groups
  {
    if groups != [] { NoFilter(groups[..|groups| - 1]); }
  }

  method GetImpersonatingGroups(headers: Headers, f: Filters) returns (groups: seq<string>)
    ensures groups == Surviving(f, HeaderValues(headers, GROUP_HEADER))
  {
    groups := HeaderValues(headers, GROUP_HEADER);
    ghost var all := groups;
    NoFilter(all);
    FiltersCompose(f, all);
    if |groups| > 0 {
      if f.keep.Some? {
        groups := FilterGroups(groups, f.keep.value);
      }
      NoFilter(groups);
      if f.ignore.Some? {
        groups := IgnoreGroups(groups, f.ignore.value);
      }
    }
  }

  // ---------- Reviews ----------

  /** A subject access review: may this user, with these groups, impersonate the named user or group? */
  datatype Review = Review(resource: string, name: string, user: User)

  datatype Answer = Failed | Denied | Allowed

  datatype Asked = Asked(review: Review, answer: Answer)

  /** The reviews an impersonation needs, all asked for the authenticated user: groups in order, then the user. */
  function NeededReviews(user: User, groups: seq<string>, impersonated: string): (reviews: seq<Review>)
    ensures |reviews| == |groups| + (if impersonated == "" then 0 else 1)
    ensures forall i :: 0 <= i < |groups| ==> reviews[i] == Review("groups", groups[i], user)
    ensures impersonated != "" ==> reviews[|groups|] == Review("users", impersonated, user)
  {
    seq(|groups|, i requires 0 <= i < |groups| => Review("groups", groups[i], user))
      + (if impersonated == "" then [] else [Review("users", impersonated, user)])
  }

  function ServiceAccountGroups(username: string): seq<string> {
    match SplitUsername(username)
    case None => []
    case Some((namespace, _)) => [SERVICE_ACCOUNT_GROUP_PREFIX + namespace, ALL_SERVICE_ACCOUNTS, ALL_AUTHENTICATED]
  }

  /** The identity a permitted request acts as. */
  function ActingAs(user: User, groups: seq<string>, impersonated: string): User {
    User(
      if impersonated != "" then impersonated else user.username,
      if groups != [] then groups
      else if impersonated != "" then ServiceAccountGroups(impersonated)
      else user.groups)
  }

  /** What the headers ask for: the first user, all groups, and nothing where they are missing or empty. */
  lemma ImpersonationHeaders(headers: Headers)
    ensures ImpersonatingUser(headers) ==
      if "Impersonate-User" in headers && headers["Impersonate-User"] != [] then headers["Impersonate-User"][0] else ""
    ensures HeaderValues(headers, GROUP_HEADER) ==
      if "Impersonate-Group" in headers then headers["Impersonate-Group"] else []
  {
  }

  /**
   * Who a permitted request acts as: without impersonation the authenticated user; with surviving groups these;
   * otherwise a service account has the three groups of its namespace, and any other user none.
   */
  lemma ActsAs(user: User, groups: seq<string>, namespace: string, name: string, stranger: string)
    requires IsDnsLabel(namespace) && IsDnsSubdomain(name)
    requires stranger != "" && SplitUsername(stranger).None?
    ensures ActingAs(user, [], "") == user
    ensures groups != [] ==> ActingAs(user, groups, "") == User(user.username, groups)
    ensures groups != [] ==> ActingAs(user, groups, stranger) == User(stranger, groups)
    ensures ActingAs(user, [], stranger) == User(stranger, [])
    ensures var account := "system:serviceaccount:" + (namespace + [':'] + name);
      && (groups != [] ==> ActingAs(user, groups, account) == User(account, groups))
      && ActingAs(user, [], account) ==
           User(account, ["system:serviceaccounts:" + namespace, "system:serviceaccounts", "system:authenticated"])
  {
    SplitOfMadeUsername(namespace, name);
    assert MakeUsername(namespace, name) == "system:serviceaccount:" + (namespace + [':'] + name);
  }

  // ---------- Deferred changes ----------

  /** A deferred closure overwriting the named results. */
  datatype Defer = AssumeGroups(groups: seq<string>) | AssumeUser(username: string)

  function RunDefer(d: Defer, result: User): User {
    match d
    case AssumeGroups(groups) => result.(groups := groups)
    case AssumeUser(username) => User(username, ServiceAccountGroups(username))
  }

  /** Deferred closures run last in, first out, after the results have been set. */
  function RunDefers(defers: seq<Defer>, result: User): User
    decreases |defers|
  {
    if defers == [] then result
    else RunDefers(defers[..|defers| - 1], RunDefer(defers[|defers| - 1], result))
  }

  lemma RunOne(d: Defer, result: User)
    ensures RunDefers([d], result) == RunDefer(d, result)
  {
    assert [d][..0] == [];
  }

  lemma RunTwo(first: Defer, second: Defer, result: User)
    ensures RunDefers([first, second], result) == RunDefer(first, RunDefer(second, result))
  {
    var both := [first, second];
    assert both[..|both| - 1] == [first];
    RunOne(first, RunDefer(second, result));
  }

  /** The changes a request with these permitted impersonations defers, in the order it defers them. */
  function DefersFor(groups: seq<string>, impersonated: string): seq<Defer> {
    if groups != [] && impersonated != "" then [AssumeGroups(groups), AssumeUser(impersonated)]
    else if groups != [] then [AssumeGroups(groups)]
    else if impersonated != "" then [AssumeUser(impersonated)]
    else []
  }

  /** They turn the authenticated user into the acting one, and nobody into the surviving groups. */
  lemma DefersAct(user: User, groups: seq<string>, impersonated: string)
    ensures RunDefers(DefersFor(groups, impersonated), user) == ActingAs(user, groups, impersonated)
    ensures RunDefers(DefersFor(groups, ""), NOBODY) == User("", groups)
  {
    RunOne(AssumeGroups(groups), user);
    RunOne(AssumeGroups(groups), NOBODY);
    RunOne(AssumeUser(impersonated), user);
    RunTwo(AssumeGroups(groups), AssumeUser(impersonated), user);
  }

  // ---------- GetUserAndGroups ----------

  datatype Config = Config(filters: Filters, skipReview: bool)

  const NOBODY := User("", [])

  /** The reviews so far: the needed ones in order, each answered by the API server at its turn, all but a last refusal allowed. */
  ghost predicate TraceOk(trace: seq<Asked>, needed: seq<Review>, answers: (nat, Review) -> Answer, refused: bool) {
    && |trace| <= |needed|
    && (forall i :: 0 <= i < |trace| ==> trace[i] == Asked(needed[i], answers(i, needed[i])))
    && (forall i :: 0 <= i < |trace| - (if refused then 1 else 0) ==> trace[i].answer == Allowed)
    && (refused ==> |trace| > 0 && trace[|trace| - 1].answer != Allowed)
  }

  /** An error is the refusal the trace ends with. */
  ghost predicate ErrorOk(err: Option<IdentityError>, trace: seq<Asked>) {
    err.Some? ==> |trace| > 0 && err.value == Refusal(trace[|trace| - 1])
  }

  /**
   * `GetUserAndGroups`: the cached identity, the authentication error, or the identity the request acts as
   * once its reviews are allowed. The n-th review is answered by `answers(n, review)`. A refused user review
   * still runs the deferred change of groups.
   */
  method GetUserAndGroups(cached: Option<User>, authenticated: Result<User, IdentityError>, headers: Headers,
                          config: Config, answers: (nat, Review) -> Answer)
    returns (result: User, err: Option<IdentityError>, trace: seq<Asked>)
    ensures cached.Some? ==> result == cached.value && err.None? && trace == []
    ensures cached.None? && authenticated.Err? ==> result == NOBODY && err == Some(authenticated.error) && trace == []
    ensures cached.None? && authenticated.Ok? ==>
      var user, groups, impersonated :=
        authenticated.value, Surviving(config.filters, HeaderValues(headers, GROUP_HEADER)), ImpersonatingUser(headers);
      && Reviewed(NeededReviews(user, groups, impersonated), config, answers, err, trace)
      && (err.None? ==> result == ActingAs(user, groups, impersonated))
      && (err.Some? ==> result == if LeaksGroups(user, groups, impersonated, config, answers) then User("", groups) else NOBODY)
      && (err.Some? && result != NOBODY <==> LeaksGroups(user, groups, impersonated, config, answers))
      && ReviewsSound(user, groups, impersonated, config, answers, err, trace)
    ensures cached.None? && err.None? && Surviving(config.filters, HeaderValues(headers, GROUP_HEADER)) == [] ==>
      match (ImpersonatingUser(headers), SplitUsername(ImpersonatingUser(headers)))
      case ("", _) => authenticated == Ok(result)
      case (_, None) => result.groups == []
      case (_, Some((namespace, _))) =>
        result.groups == ["system:serviceaccounts:" + namespace, "system:serviceaccounts", "system:authenticated"]
  {
    if cached.Some? {
      return cached.value, None, [];
    }
    if authenticated.Err? {
      return NOBODY, Some(authenticated.error), [];
    }
    var user := authenticated.value;
    var groups := GetImpersonatingGroups(headers, config.filters);
    var impersonated := ImpersonatingUser(headers);
    var defers: seq<Defer>;
    err, trace, defers := Impersonate(user, groups, impersonated, config, answers);
    ReviewedIsSound(user, groups, impersonated, config, answers, err, trace);
    ReviewedLeaks(user, groups, impersonated, config, answers, err, trace);
    DefersAct(user, groups, impersonated);
    result := RunDefers(defers, if err.Some? then NOBODY else user);
  }

  /** How the reviews may have gone: not at all when they are switched off, else as far as they were allowed. */
  ghost predicate Reviewed(needed: seq<Review>, config: Config, answers: (nat, Review) -> Answer,
                           err: Option<IdentityError>, trace: seq<Asked>)
  {
    if config.skipReview then err.None? && trace == []
    else TraceOk(trace, needed, answers, err.Some?) && ErrorOk(err, trace) && (err.None? ==> |trace| == |needed|)
  }

  /** The reviews of the impersonated groups and user, each followed by the deferred change it permits. */
  method Impersonate(user: User, groups: seq<string>, impersonated: string, config: Config, answers: (nat, Review) -> Answer)
    returns (err: Option<IdentityError>, trace: seq<Asked>, defers: seq<Defer>)
    ensures Reviewed(NeededReviews(user, groups, impersonated), config, answers, err, trace)
    ensures err.None? ==> defers == DefersFor(groups, impersonated)
    ensures err.Some? ==> defers == if |trace| > |groups| then DefersFor(groups, "") else []
  {
    ghost var needed := NeededReviews(user, groups, impersonated);
    err, trace, defers := None, [], [];
    if |groups| > 0 {
      if !config.skipReview {
        err, trace := ReviewGroups(user, groups, answers, needed);
        if err.Some? {
          return;
        }
      }
      defers := [AssumeGroups(groups)];
    }
    if |impersonated| > 0 {
      if !config.skipReview {
        err, trace := AskNext(Review("users", impersonated, user), trace, answers, needed);
        if err.Some? {
          return;
        }
      }
      defers := defers + [AssumeUser(impersonated)];
    }
  }

  function Refusal(asked: Asked): IdentityError {
    if asked.answer == Failed then ReviewFailed else NotAllowed(asked.review)
  }

  /** One more review: recorded with its answer, an error unless it is allowed. */
  method AskNext(review: Review, before: seq<Asked>, answers: (nat, Review) -> Answer, ghost needed: seq<Review>)
    returns (err: Option<IdentityError>, trace: seq<Asked>)
    requires TraceOk(before, needed, answers, false) && |before| < |needed| && needed[|before|] == review
    ensures trace == before + [Asked(review, answers(|before|, review))]
    ensures TraceOk(trace, needed, answers, err.Some?)
    ensures ErrorOk(err, trace)
  {
    var answer := answers(|before|, review);
    trace := before + [Asked(review, answer)];
    if answer == Failed {
      return Some(ReviewFailed), trace;
    }
    if answer == Denied {
      return Some(NotAllowed(review)), trace;
    }
    err := None;
  }

  method ReviewGroups(user: User, groups: seq<string>, answers: (nat, Review) -> Answer, ghost needed: seq<Review>)
    returns (err: Option<IdentityError>, trace: seq<Asked>)
    requires |groups| <= |needed| && forall i :: 0 <= i < |groups| ==> needed[i] == Review("groups", groups[i], user)
    ensures TraceOk(trace, needed, answers, err.Some?) && |trace| <= |groups|
    ensures err.None? ==> |trace| == |groups|
    ensures ErrorOk(err, trace)
  {
    trace := [];
    for i := 0 to |groups|
      invariant |trace| == i && TraceOk(trace, needed, answers, false)
    {
      err, trace := AskNext(Review("groups", groups[i], user), trace, answers, needed);
      if err.Some? {
        return;
      }
    }
    err := None;
  }

  /** Every review is asked for the authenticated user and groups, never for the impersonated ones. */
  lemma ReviewsAskForAuthenticated(trace: seq<Asked>, user: User, groups: seq<string>, impersonated: string,
                                   answers: (nat, Review) -> Answer, refused: bool)
    requires TraceOk(trace, NeededReviews(user, groups, impersonated), answers, refused)
    ensures forall i :: 0 <= i < |trace| ==> trace[i].review.user == user
  {
    var needed := NeededReviews(user, groups, impersonated);
    forall i | 0 <= i < |trace| ensures trace[i].review.user == user {
      assert trace[i].review == needed[i];
    }
  }

  /** A complete unrefused trace holds an allowed review for the impersonated user and for every surviving group. */
  lemma SuccessIsReviewed(trace: seq<Asked>, user: User, groups: seq<string>, impersonated: string,
                          answers: (nat, Review) -> Answer)
    requires TraceOk(trace, NeededReviews(user, groups, impersonated), answers, false)
    requires |trace| == |NeededReviews(user, groups, impersonated)|
    ensures forall g :: g in groups ==> Asked(Review("groups", g, user), Allowed) in trace
    ensures impersonated != "" ==> Asked(Review("users", impersonated, user), Allowed) in trace
  {
    var needed := NeededReviews(user, groups, impersonated);
    forall g | g in groups ensures Asked(Review("groups", g, user), Allowed) in trace {
      var i :| 0 <= i < |groups| && groups[i] == g;
      assert trace[i] == Asked(needed[i], Allowed);
    }
    if impersonated != "" {
      assert trace[|groups|] == Asked(needed[|groups|], Allowed);
    }
  }

  /** The request is admitted exactly when every needed review would be allowed at its turn. */
  lemma AdmittedIff(trace: seq<Asked>, needed: seq<Review>, answers: (nat, Review) -> Answer, refused: bool)
    requires TraceOk(trace, needed, answers, refused) && (!refused ==> |trace| == |needed|)
    ensures !refused <==> forall i :: 0 <= i < |needed| ==> answers(i, needed[i]) == Allowed
  {
    if refused {
      var last := |trace| - 1;
      assert answers(last, needed[last]) == trace[last].answer;
    } else {
      forall i | 0 <= i < |needed| ensures answers(i, needed[i]) == Allowed {
        assert trace[i] == Asked(needed[i], answers(i, needed[i]));
      }
    }
  }

  /**
   * What the reviews are for: all are asked for the authenticated user; unless reviews are switched off, the
   * request succeeds exactly when each needed one would be allowed, and then one was allowed for every
   * surviving group and for the impersonated user.
   */
  ghost predicate ReviewsSound(user: User, groups: seq<string>, impersonated: string, config: Config,
                               answers: (nat, Review) -> Answer, err: Option<IdentityError>, trace: seq<Asked>)
  {
    var needed := NeededReviews(user, groups, impersonated);
    && (forall i :: 0 <= i < |trace| ==> trace[i].review.user == user)
    && (!config.skipReview ==> (err.None? <==> forall i :: 0 <= i < |needed| ==> answers(i, needed[i]) == Allowed))
    && (!config.skipReview && err.None? ==>
          && (forall g :: g in groups ==> Asked(Review("groups", g, user), Allowed) in trace)
          && (impersonated != "" ==> Asked(Review("users", impersonated, user), Allowed) in trace))
  }

  lemma ReviewedIsSound(user: User, groups: seq<string>, impersonated: string, config: Config,
                        answers: (nat, Review) -> Answer, err: Option<IdentityError>, trace: seq<Asked>)
    requires Reviewed(NeededReviews(user, groups, impersonated), config, answers, err, trace)
    ensures ReviewsSound(user, groups, impersonated, config, answers, err, trace)
  {
    if !config.skipReview {
      ReviewsAskForAuthenticated(trace, user, groups, impersonated, answers, err.Some?);
      AdmittedIff(trace, NeededReviews(user, groups, impersonated), answers, err.Some?);
      if err.None? {
        SuccessIsReviewed(trace, user, groups, impersonated, answers);
      }
    }
  }

  /** The groups are permitted and the user is not: the refusal comes with the groups already taken on. */
  ghost predicate LeaksGroups(user: User, groups: seq<string>, impersonated: string, config: Config,
                              answers: (nat, Review) -> Answer)
  {
    && !config.skipReview && groups != [] && impersonated != ""
    && (forall i :: 0 <= i < |groups| ==> answers(i, Review("groups", groups[i], user)) == Allowed)
    && answers(|groups|, Review("users", impersonated, user)) != Allowed
  }

  lemma ReviewedLeaks(user: User, groups: seq<string>, impersonated: string, config: Config,
                      answers: (nat, Review) -> Answer, err: Option<IdentityError>, trace: seq<Asked>)
    requires Reviewed(NeededReviews(user, groups, impersonated), config, answers, err, trace)
    ensures err.Some? && |trace| > |groups| && groups != [] <==> LeaksGroups(user, groups, impersonated, config, answers)
  {
    var needed := NeededReviews(user, groups, impersonated);
    if err.Some? && |trace| > |groups| {
      forall i | 0 <= i < |groups| ensures answers(i, needed[i]) == Allowed {
        assert trace[i] == Asked(needed[i], answers(i, needed[i]));
      }
      assert trace[|groups|] == Asked(needed[|groups|], answers(|groups|, needed[|groups|]));
    }
  }

  /** `ResolveUserAndGroups`: the identity is kept with the request once found, and nothing is asked again. */
  method ResolveUserAndGroups(cached: Option<User>, authenticated: Result<User, IdentityError>, headers: Headers,
                              config: Config, answers: (nat, Review) -> Answer)
    returns (kept: Option<User>, result: User, err: Option<IdentityError>, trace: seq<Asked>)
    ensures cached.Some? ==> kept == cached && result == cached.value && err.None? && trace == []
    ensures err.None? ==> kept == Some(result)
    ensures err.Some? ==> kept == cached && result == NOBODY
    ensures cached.None? && err.None? ==> authenticated.Ok?
    ensures cached.None? && authenticated.Ok? ==>
      ReviewsSound(authenticated.value, Surviving(config.filters, HeaderValues(headers, GROUP_HEADER)),
                   ImpersonatingUser(headers), config, answers, err, trace)
    ensures cached.None? && err.None? ==>
      result == ActingAs(authenticated.value, Surviving(config.filters, HeaderValues(headers, GROUP_HEADER)), ImpersonatingUser(headers))
  {
    if cached.Some? {
      return cached, cached.value, None, [];
    }
    result, err, trace := GetUserAndGroups(cached, authenticated, headers, config, answers);
    if err.Some? {
      return cached, NOBODY, err, trace;
    }
    kept := Some(result);
  }
}
