/**
 * The observedGeneration protocol of the GlobalProxySettings and ProxySetting reconcilers: any number of
 * replicas read one object, write its status back if it has not changed since, retry on conflict and
 * requeue on error, while its spec is written, deleted and created again underneath them and replicas start
 * and restart.
 */
module StatusProtocol {
  import opened Wrappers

  // ---------- The API server ----------

  /** One settings object: its identity, version, spec generation and status. */
  datatype Settings = Settings(uid: nat, version: nat, generation: nat, observed: nat, readyObserved: nat)

  datatype Server = Server(current: Option<Settings>, nextUid: nat, nextVersion: nat)

  datatype WriteError = NotFound | Conflict

  /** The status the reconciler computes for the object it has just read. */
  function Observed(latest: Settings): Settings {
    latest.(observed := latest.generation, readyObserved := latest.generation)
  }

  /** A write that changes something gets a new version. */
  function Versioned(server: Server, before: Settings, after: Settings): Server {
    if after == before then server
    else server.(current := Some(after.(version := server.nextVersion)), nextVersion := server.nextVersion + 1)
  }

  /** A status update: refused when the object is gone or has another version; only the status is taken over. */
  function StatusUpdate(server: Server, latest: Settings): (Server, Option<WriteError>) {
    match server.current
    case None => (server, Some(NotFound))
    case Some(o) =>
      if o.uid != latest.uid || o.version != latest.version then (server, Some(Conflict))
      else (Versioned(server, o, o.(observed := latest.observed, readyObserved := latest.readyObserved)), None)
  }

  function SpecWrite(server: Server): Server
    requires server.current.Some?
  {
    var o := server.current.value;
    server.(current := Some(o.(generation := o.generation + 1, version := server.nextVersion)), nextVersion := server.nextVersion + 1)
  }

  /** A change of labels or annotations: a new version, the same generation. */
  function MetadataWrite(server: Server): Server
    requires server.current.Some?
  {
    var o := server.current.value;
    server.(current := Some(o.(version := server.nextVersion)), nextVersion := server.nextVersion + 1)
  }

  function Create(server: Server): Server {
    Server(Some(Settings(server.nextUid, server.nextVersion, 1, 0, 0)), server.nextUid + 1, server.nextVersion + 1)
  }

  // ---------- Replicas ----------

  /** What a replica's worker is doing. `RetryOnConflict` with the default backoff makes four attempts. */
  datatype Work =
    | Idle
    | Begun
    | Reading(attempts: nat)
    | Holding(attempts: nat, latest: Settings)

  const ATTEMPTS: nat := 4

  /** A replica: its cached view, the watch events still to come, its queue entry and its worker. */
  datatype Replica = Replica(cached: Option<Settings>, events: seq<Option<Settings>>, queued: bool, work: Work)

  /** `GenerationChangedPredicate`: status-only and metadata-only updates do not queue a reconcile. */
  predicate PassesFilter(before: Option<Settings>, after: Option<Settings>) {
    if before.Some? && after.Some? && before.value.uid == after.value.uid then before.value.generation != after.value.generation
    else before.Some? || after.Some?
  }

  datatype State = State(server: Server, replicas: seq<Replica>)

  // ---------- Steps ----------

  datatype Action =
    | WriteSpec
    | WriteMetadata
    | Delete
    | Recreate
    | Start
    | Restart(i: nat)
    | Deliver(i: nat)
    | Begin(i: nat)
    | LookUp(i: nat)
    | Read(i: nat)
    | Write(i: nat)
    | LoseReply(i: nat)
    | Fail(i: nat)

  /** Every server change reaches every replica as a watch event. */
  function Broadcast(s: State, server: Server): State {
    if server.current == s.server.current then State(server, s.replicas)
    else State(server, seq(|s.replicas|, i requires 0 <= i < |s.replicas| =>
      s.replicas[i].(events := s.replicas[i].events + [server.current])))
  }

  function SetReplica(s: State, i: nat, r: Replica): State
    requires i < |s.replicas|
  {
    s.(replicas := s.replicas[i := r])
  }

  /** A replica that has just started: its empty cache is about to be told of an existing object. */
  function Started(server: Server): Replica {
    Replica(None, if server.current.Some? then [server.current] else [], false, Idle)
  }

  predicate Enabled(s: State, a: Action) {
    match a
    case WriteSpec => s.server.current.Some?
    case WriteMetadata => s.server.current.Some?
    case Delete => s.server.current.Some?
    case Recreate => s.server.current.None?
    case Start => true
    case Restart(i) => i < |s.replicas|
    case Deliver(i) => i < |s.replicas| && s.replicas[i].events != []
    case Begin(i) => i < |s.replicas| && s.replicas[i].queued && s.replicas[i].work.Idle?
    case LookUp(i) => i < |s.replicas| && s.replicas[i].work.Begun?
    case Read(i) => i < |s.replicas| && s.replicas[i].work.Reading?
    case Write(i) => i < |s.replicas| && s.replicas[i].work.Holding?
    case LoseReply(i) => i < |s.replicas| && s.replicas[i].work.Holding?
    case Fail(i) => i < |s.replicas| && !s.replicas[i].work.Idle?
  }

  function Apply(s: State, a: Action): State
    requires Enabled(s, a)
  {
    match a
    case WriteSpec => Broadcast(s, SpecWrite(s.server))
    case WriteMetadata => Broadcast(s, MetadataWrite(s.server))
    case Delete => Broadcast(s, s.server.(current := None))
    case Recreate => Broadcast(s, Create(s.server))
    case Start => s.(replicas := s.replicas + [Started(s.server)])
    case Restart(i) => SetReplica(s, i, Started(s.server))
    case Deliver(i) =>
      var r := s.replicas[i];
      var event := r.events[0];
      SetReplica(s, i, r.(cached := event, events := r.events[1..], queued := r.queued || PassesFilter(r.cached, event)))
    case Begin(i) => SetReplica(s, i, s.replicas[i].(queued := false, work := Begun))
    case LookUp(i) =>
      var r := s.replicas[i];
      SetReplica(s, i, r.(work := if r.cached.Some? then Reading(ATTEMPTS) else Idle))
    case Read(i) =>
      var r := s.replicas[i];
      SetReplica(s, i, r.(work :=
        if s.server.current.Some? then Holding(r.work.attempts, s.server.current.value) else Idle))
    case Write(i) =>
      var r := s.replicas[i];
      var (server, err) := StatusUpdate(s.server, Observed(r.work.latest));
      var after := Broadcast(s, server);
      var r' := after.replicas[i];
      if err == Some(Conflict) then
        if r.work.attempts > 1 then SetReplica(after, i, r'.(work := Reading(r.work.attempts - 1)))
        else SetReplica(after, i, r'.(work := Idle, queued := true))
      else SetReplica(after, i, r'.(work := Idle))
    case LoseReply(i) =>
      // the update is carried out but the replica sees an error
      var after := Broadcast(s, StatusUpdate(s.server, Observed(s.replicas[i].work.latest)).0);
      SetReplica(after, i, after.replicas[i].(work := Idle, queued := true))
    case Fail(i) => SetReplica(s, i, s.replicas[i].(work := Idle, queued := true))
  }

  ghost predicate Next(s: State, s': State) {
    exists a :: Enabled(s, a) && s' == Apply(s, a)
  }

  /** No object yet; replicas may start now or later, next to an object that has lived for long. */
  predicate Initial(s: State) {
    && s.server == Server(None, 0, 0)
    && forall i :: 0 <= i < |s.replicas| ==> s.replicas[i] == Started(s.server)
  }

  ghost predicate IsRun(run: seq<State>) {
    && |run| > 0 && Initial(run[0])
    && forall i :: 0 <= i < |run| - 1 ==> Next(run[i], run[i + 1])
  }

  // ---------- The invariant ----------

  predicate Settled(o: Option<Settings>) { o.Some? ==> o.value.observed == o.value.generation == o.value.readyObserved }

  /** A snapshot no newer than the server; at the server's own version it is the server's object. */
  predicate KnownSnapshot(server: Server, o: Settings) {
    && o.version < server.nextVersion && o.uid < server.nextUid
    && (server.current.Some? && server.current.value.version == o.version ==> server.current.value == o)
  }

  /** Delivering all outstanding events ends at the server's present object. */
  predicate EventsLeadTo(r: Replica, current: Option<Settings>) {
    if r.events == [] then r.cached == current else r.events[|r.events| - 1] == current
  }

  function View(r: Replica, k: nat): Option<Settings>
    requires k <= |r.events|
  {
    if k == 0 then r.cached else r.events[k - 1]
  }

  /** Some outstanding event will queue a reconcile. */
  ghost predicate WillQueue(r: Replica) {
    exists k :: 0 <= k < |r.events| && PassesFilter(View(r, k), View(r, k + 1))
  }

  /** The replica still has a reconcile to do: queued, running, or announced by an outstanding event. */
  ghost predicate Busy(r: Replica) { r.queued || !r.work.Idle? || WillQueue(r) }

  ghost predicate ReplicaOk(server: Server, r: Replica) {
    && EventsLeadTo(r, server.current)
    && (r.work.Holding? ==> KnownSnapshot(server, r.work.latest))
    && (Settled(server.current) || Busy(r))
    // a worker about to look in its cache finds the object there unless another event is to come
    && (!Settled(server.current) && r.work.Begun? && r.cached.None? ==> r.queued || WillQueue(r))
  }

  ghost predicate Inv(s: State) {
    && (s.server.current.Some? ==>
          var o := s.server.current.value;
          o.version < s.server.nextVersion && o.uid < s.server.nextUid && o.observed <= o.generation && o.readyObserved == o.observed)
    && forall i :: 0 <= i < |s.replicas| ==> ReplicaOk(s.server, s.replicas[i])
  }

  // ---------- How a server change reaches a replica ----------

  /** The replica after one more event has been announced. */
  function Announced(r: Replica, current: Option<Settings>): Replica { r.(events := r.events + [current]) }

  lemma AnnouncedKeeps(r: Replica, current: Option<Settings>)
    ensures EventsLeadTo(Announced(r, current), current)
    ensures WillQueue(r) ==> WillQueue(Announced(r, current))
    ensures PassesFilter(View(r, |r.events|), current) ==> WillQueue(Announced(r, current))
  {
    var r' := Announced(r, current);
    if WillQueue(r) {
      var k :| 0 <= k < |r.events| && PassesFilter(View(r, k), View(r, k + 1));
      assert View(r', k) == View(r, k) && View(r', k + 1) == View(r, k + 1);
    }
    assert View(r', |r.events|) == View(r, |r.events|) && View(r', |r.events| + 1) == current;
  }

  /** A create, delete or spec write is announced by an event that queues a reconcile. */
  lemma LoudChange(server: Server, server': Server, r: Replica)
    requires ReplicaOk(server, r) && PassesFilter(server.current, server'.current)
    requires server'.nextVersion >= server.nextVersion && server'.nextUid >= server.nextUid
    requires server'.current.Some? ==> server'.current.value.version >= server.nextVersion
    ensures ReplicaOk(server', Announced(r, server'.current))
  {
    AnnouncedKeeps(r, server'.current);
    assert View(r, |r.events|) == server.current;
  }

  /** A change of status or metadata that leaves settledness as it was, or settles the object. */
  lemma QuietChange(server: Server, server': Server, r: Replica)
    requires ReplicaOk(server, r)
    requires server'.nextVersion >= server.nextVersion && server'.nextUid >= server.nextUid
    requires server'.current.Some? ==> server'.current.value.version >= server.nextVersion
    requires Settled(server.current) ==> Settled(server'.current)
    ensures ReplicaOk(server', Announced(r, server'.current))
  {
    AnnouncedKeeps(r, server'.current);
  }

  // ---------- Every step keeps the invariant ----------

  lemma ServerStepKeepsInv(s: State, a: Action)
    requires Inv(s) && Enabled(s, a) && (a.WriteSpec? || a.WriteMetadata? || a.Delete? || a.Recreate?)
    ensures Inv(Apply(s, a))
  {
    var s' := Apply(s, a);
    forall i | 0 <= i < |s'.replicas| ensures ReplicaOk(s'.server, s'.replicas[i]) {
      assert s'.replicas[i] == Announced(s.replicas[i], s'.server.current);
      if a.WriteMetadata? {
        QuietChange(s.server, s'.server, s.replicas[i]);
      } else {
        LoudChange(s.server, s'.server, s.replicas[i]);
      }
    }
  }

  /** A replica that starts has a reconcile announced for an object that exists, settled or not. */
  lemma StartKeepsInv(s: State, a: Action)
    requires Inv(s) && Enabled(s, a) && (a.Start? || a.Restart?)
    ensures Inv(Apply(s, a))
  {
    var s' := Apply(s, a);
    var r := Started(s.server);
    if s.server.current.Some? {
      assert PassesFilter(View(r, 0), View(r, 1));
    }
    assert ReplicaOk(s.server, r);
    forall i | 0 <= i < |s'.replicas| ensures ReplicaOk(s'.server, s'.replicas[i]) {
      assert s'.replicas[i] == r || s'.replicas[i] == s.replicas[i];
    }
  }

  lemma DeliverKeepsOk(server: Server, r: Replica)
    requires ReplicaOk(server, r) && r.events != []
    ensures ReplicaOk(server, r.(cached := r.events[0], events := r.events[1..],
                                 queued := r.queued || PassesFilter(r.cached, r.events[0])))
  {
    var event := r.events[0];
    var r' := r.(cached := event, events := r.events[1..], queued := r.queued || PassesFilter(r.cached, event));
    if WillQueue(r) && !PassesFilter(r.cached, event) {
      var k :| 0 <= k < |r.events| && PassesFilter(View(r, k), View(r, k + 1));
      assert View(r', k - 1) == View(r, k) && View(r', k) == View(r, k + 1);
    }
    if r'.cached.None? && !PassesFilter(r.cached, event) {
      assert r.cached.None?;
    }
    if r'.cached.None? && !Settled(server.current) && r'.work.Begun? {
      NoneLeadsToQueue(r', server.current);
    }
  }

  /** A cache without the object, while the server has it, has a queueing event to come. */
  lemma {:induction false} NoneLeadsToQueue(r: Replica, current: Option<Settings>)
    requires r.cached.None? && current.Some? && EventsLeadTo(r, current)
    ensures WillQueue(r)
    decreases |r.events|
  {
    if r.events[0].Some? {
      assert PassesFilter(View(r, 0), View(r, 1));
    } else {
      var rest := r.(cached := r.events[0], events := r.events[1..]);
      NoneLeadsToQueue(rest, current);
      var k :| 0 <= k < |rest.events| && PassesFilter(View(rest, k), View(rest, k + 1));
      assert View(r, k + 1) == View(rest, k) && View(r, k + 2) == View(rest, k + 1);
    }
  }

  lemma StatusUpdateFacts(server: Server, latest: Settings)
    requires server.current.Some? ==>
      var o := server.current.value; o.version < server.nextVersion && o.uid < server.nextUid
    requires KnownSnapshot(server, latest)
    ensures var (server', err) := StatusUpdate(server, Observed(latest));
      && server'.nextUid == server.nextUid && server'.nextVersion >= server.nextVersion
      && (err != Some(Conflict) ==> Settled(server'.current))
      && (server'.current == server.current || (err.None? && server'.current.Some? && server'.current.value.version == server.nextVersion))
      && (server'.current.Some? <==> server.current.Some?)
      && (server'.current.Some? ==>
            server'.current.value.uid == server.current.value.uid && server'.current.value.generation == server.current.value.generation)
      && (server'.current == server.current ==> server' == server)
      && (err.Some? ==> server' == server)
  {
  }

  lemma WriteKeepsInv(s: State, i: nat, lost: bool)
    requires Inv(s) && Enabled(s, Write(i))
    ensures Inv(Apply(s, if lost then LoseReply(i) else Write(i)))
  {
    var r := s.replicas[i];
    var (server, err) := StatusUpdate(s.server, Observed(r.work.latest));
    assert ReplicaOk(s.server, r);
    StatusUpdateFacts(s.server, r.work.latest);
    var after := Broadcast(s, server);
    forall j | 0 <= j < |s.replicas| ensures ReplicaOk(server, after.replicas[j]) {
      assert ReplicaOk(s.server, s.replicas[j]);
      if server.current != s.server.current {
        assert after.replicas[j] == Announced(s.replicas[j], server.current);
        QuietChange(s.server, server, s.replicas[j]);
      }
    }
    assert after.server == server;
    var s' := Apply(s, if lost then LoseReply(i) else Write(i));
    assert s'.server == server;
    var r', own := s'.replicas[i], after.replicas[i];
    assert ReplicaOk(server, r') by {
      SameEvents(server, own, r'.queued, r'.work);
    }
  }

  /** Changing the queue entry and the worker keeps a replica right as long as it stays busy or the object is settled. */
  lemma SameEvents(server: Server, r: Replica, queued: bool, work: Work)
    requires ReplicaOk(server, r)
    requires work.Holding? ==> KnownSnapshot(server, work.latest)
    requires Settled(server.current) || queued || !work.Idle? || WillQueue(r)
    requires !Settled(server.current) && work.Begun? && r.cached.None? ==> queued || WillQueue(r)
    ensures ReplicaOk(server, r.(queued := queued, work := work))
  {
    var r' := r.(queued := queued, work := work);
    if WillQueue(r) {
      var k :| 0 <= k < |r.events| && PassesFilter(View(r, k), View(r, k + 1));
      assert View(r', k) == View(r, k) && View(r', k + 1) == View(r, k + 1);
    }
  }

  lemma LocalStepKeepsInv(s: State, a: Action)
    requires Inv(s) && Enabled(s, a) && (a.Deliver? || a.Begin? || a.LookUp? || a.Read? || a.Fail?)
    ensures Inv(Apply(s, a))
  {
    var r := s.replicas[a.i];
    assert ReplicaOk(s.server, r);
    if r.cached.None? && s.server.current.Some? {
      NoneLeadsToQueue(r, s.server.current);
    }
    match a
    case Deliver(i) => DeliverKeepsOk(s.server, r);
    case Begin(i) => SameEvents(s.server, r, false, Begun);
    case LookUp(i) => SameEvents(s.server, r, r.queued, if r.cached.Some? then Reading(ATTEMPTS) else Idle);
    case Read(i) =>
      SameEvents(s.server, r, r.queued,
                 if s.server.current.Some? then Holding(r.work.attempts, s.server.current.value) else Idle);
    case Fail(i) => SameEvents(s.server, r, true, Idle);
  }

  lemma StepKeepsInv(s: State, a: Action)
    requires Inv(s) && Enabled(s, a)
    ensures Inv(Apply(s, a))
  {
    match a
    case WriteSpec => ServerStepKeepsInv(s, a);
    case WriteMetadata => ServerStepKeepsInv(s, a);
    case Delete => ServerStepKeepsInv(s, a);
    case Recreate => ServerStepKeepsInv(s, a);
    case Start => StartKeepsInv(s, a);
    case Restart(_) => StartKeepsInv(s, a);
    case Write(i) => WriteKeepsInv(s, i, false);
    case LoseReply(i) => WriteKeepsInv(s, i, true);
    case _ => LocalStepKeepsInv(s, a);
  }

  lemma {:induction false} RunKeepsInv(run: seq<State>, i: nat)
    requires IsRun(run) && i < |run|
    ensures Inv(run[i])
  {
    if i > 0 {
      RunKeepsInv(run, i - 1);
      assert Next(run[i - 1], run[(i - 1) + 1]);
      var a :| Enabled(run[i - 1], a) && run[i] == Apply(run[i - 1], a);
      StepKeepsInv(run[i - 1], a);
    }
  }

  // ---------- What the protocol guarantees over all runs ----------

  /** The status never runs ahead of the spec. */
  lemma NeverAhead(run: seq<State>, i: nat)
    requires IsRun(run) && i < |run| && run[i].server.current.Some?
    ensures run[i].server.current.value.observed <= run[i].server.current.value.generation
  {
    RunKeepsInv(run, i);
  }

  /** A write the replica sees succeed leaves the object settled, whatever happened since the read. */
  lemma SettledAfterWrite(run: seq<State>, i: nat, replica: nat)
    requires IsRun(run) && i < |run| && Enabled(run[i], Write(replica))
    requires StatusUpdate(run[i].server, Observed(run[i].replicas[replica].work.latest)).1.None?
    ensures var o := Apply(run[i], Write(replica)).server.current;
      o.Some? && o.value.observed == o.value.generation == o.value.readyObserved
  {
    RunKeepsInv(run, i);
    assert ReplicaOk(run[i].server, run[i].replicas[replica]);
    StatusUpdateFacts(run[i].server, run[i].replicas[replica].work.latest);
  }

  /** A single replica with no reconcile queued, running or announced is enough for the status to be current. */
  lemma SettledWhenIdle(run: seq<State>, i: nat, replica: nat)
    requires IsRun(run) && i < |run| && replica < |run[i].replicas| && !Busy(run[i].replicas[replica])
    ensures Settled(run[i].server.current)
  {
    RunKeepsInv(run, i);
    assert ReplicaOk(run[i].server, run[i].replicas[replica]);
  }

  /** The object with this identity has observed at least this much, or is gone for good. */
  predicate AtLeast(server: Server, uid: nat, observed: nat, generation: nat) {
    && uid < server.nextUid
    && (server.current.Some? && server.current.value.uid == uid ==>
          server.current.value.observed >= observed && server.current.value.generation >= generation)
  }

  lemma StepNeverDecreases(s: State, a: Action, uid: nat, observed: nat, generation: nat)
    requires Inv(s) && Enabled(s, a) && AtLeast(s.server, uid, observed, generation)
    ensures AtLeast(Apply(s, a).server, uid, observed, generation)
  {
    if a.Write? || a.LoseReply? {
      assert ReplicaOk(s.server, s.replicas[a.i]);
      StatusUpdateFacts(s.server, s.replicas[a.i].work.latest);
    }
  }

  /** Within the life of one object, from its creation to its deletion, nothing observed is ever lost. */
  lemma {:induction false} NeverDecreases(run: seq<State>, i: nat, j: nat)
    requires IsRun(run) && i <= j < |run| && run[i].server.current.Some?
    ensures var o := run[i].server.current.value; AtLeast(run[j].server, o.uid, o.observed, o.generation)
    decreases j
  {
    RunKeepsInv(run, i);
    if i < j {
      NeverDecreases(run, i, j - 1);
      RunKeepsInv(run, j - 1);
      assert Next(run[j - 1], run[(j - 1) + 1]);
      var a :| Enabled(run[j - 1], a) && run[j] == Apply(run[j - 1], a);
      var o := run[i].server.current.value;
      StepNeverDecreases(run[j - 1], a, o.uid, o.observed, o.generation);
    }
  }
}
