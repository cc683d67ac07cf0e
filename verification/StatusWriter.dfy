/** The reconcilers' retried status update as code against an API server that others write to as well. */
module StatusWriter {
  import opened StatusProtocol
  import opened Wrappers

  /** What someone else does to the object between a read and the write that follows it. */
  datatype Interference = SpecChanged | MetadataChanged | Deleted | Created | StatusWritten(observed: nat)

  function Interfere(server: Server, event: Interference): Server {
    match event
    case SpecChanged => if server.current.Some? then SpecWrite(server) else server
    case MetadataChanged => if server.current.Some? then MetadataWrite(server) else server
    case Deleted => server.(current := None)
    case Created => if server.current.None? then Create(server) else server
    case StatusWritten(observed) =>
      if server.current.Some? then
        var o := server.current.value;
        Versioned(server, o, o.(observed := observed, readyObserved := observed))
      else server
  }

  function InterfereAll(server: Server, events: seq<Interference>): Server {
    if events == [] then server else Interfere(InterfereAll(server, events[..|events| - 1]), events[|events| - 1])
  }

  /** Versions and identities are handed out once. */
  predicate Numbered(server: Server) {
    server.current.Some? ==>
      server.current.value.version < server.nextVersion && server.current.value.uid < server.nextUid
  }

  /** An object seen earlier: at its version, the server still holds exactly it. */
  lemma {:induction false} SnapshotStaysKnown(server: Server, events: seq<Interference>, seen: Settings)
    requires Numbered(server) && KnownSnapshot(server, seen)
    ensures Numbered(InterfereAll(server, events)) && KnownSnapshot(InterfereAll(server, events), seen)
  {
    if events != [] {
      SnapshotStaysKnown(server, events[..|events| - 1], seen);
    }
  }

  class ApiServer {
    var state: Server

    constructor (state: Server)
      ensures this.state == state
    {
      this.state := state;
    }

    method Get() returns (latest: Option<Settings>)
      ensures latest == state.current
    {
      latest := state.current;
    }

    method StatusWrite(latest: Settings) returns (err: Option<WriteError>)
      modifies this
      ensures (state, err) == StatusUpdate(old(state), latest)
    {
      if state.current.None? {
        return Some(NotFound);
      }
      var o := state.current.value;
      if o.uid != latest.uid || o.version != latest.version {
        return Some(Conflict);
      }
      state := Versioned(state, o, o.(observed := latest.observed, readyObserved := latest.readyObserved));
      err := None;
    }

    method Others(events: seq<Interference>)
      modifies this
      ensures state == InterfereAll(old(state), events)
    {
      for i := 0 to |events|
        invariant state == InterfereAll(old(state), events[..i])
      {
        assert events[..i + 1][..i] == events[..i];
        state := Interfere(state, events[i]);
      }
      assert events[..|events|] == events;
    }
  }

  /**
   * `updateStatus`: read, set the status, write back, retry on conflict. Between the k-th read and write
   * others do `interference[k]`. Without an error the object is gone or settled; an error needs
   * interference in every one of the attempts.
   */
  method UpdateStatus(api: ApiServer, interference: seq<seq<Interference>>) returns (err: Option<WriteError>)
    requires Numbered(api.state) && |interference| == ATTEMPTS
    modifies api
    ensures Numbered(api.state)
    ensures err.None? ==> Settled(api.state.current)
    ensures err.Some? ==> err == Some(Conflict) && forall k :: 0 <= k < ATTEMPTS ==> interference[k] != []
  {
    var attempt := 0;
    while attempt < ATTEMPTS
      invariant 0 <= attempt <= ATTEMPTS
      invariant Numbered(api.state)
      invariant forall k :: 0 <= k < attempt ==> interference[k] != []
    {
      var read := api.Get();
      if read.None? {
        return None;
      }
      var latest := read.value;
      latest := latest.(observed := latest.generation);
      latest := latest.(readyObserved := latest.generation);
      ghost var before := api.state;
      api.Others(interference[attempt]);
      SnapshotStaysKnown(before, interference[attempt], read.value);
      StatusUpdateFacts(api.state, read.value);
      var failure := api.StatusWrite(latest);
      if failure.None? || failure.value.NotFound? {
        return None;
      }
      assert interference[attempt] != [];
      attempt := attempt + 1;
    }
    err := Some(Conflict);
  }

  /** `Reconcile`: nothing to do for an object missing from the cache, otherwise the retried update. */
  method Reconcile(api: ApiServer, cached: Option<Settings>, interference: seq<seq<Interference>>)
    returns (err: Option<WriteError>)
    requires Numbered(api.state) && |interference| == ATTEMPTS
    modifies api
    ensures Numbered(api.state)
    ensures cached.None? ==> err.None? && api.state == old(api.state)
    ensures cached.Some? && err.None? ==> Settled(api.state.current)
    ensures err.Some? ==> err == Some(Conflict) && forall k :: 0 <= k < ATTEMPTS ==> interference[k] != []
  {
    if cached.None? {
      return None;
    }
    err := UpdateStatus(api, interference);
  }
}
