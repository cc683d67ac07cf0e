/** API paths: printed from a group, version and resource, and read back by the two path parsers. */
module Paths {
  import opened Text
  import opened Wrappers

  /** Kind holds the plural resource name until discovery replaces it. */
  datatype Gvk = Gvk(group: string, version: string, kind: string)

  /** A namespaced request: its group, namespace, resource and object name. */
  datatype ResourceRequest = ResourceRequest(group: string, namespace: string, resource: string, name: string)

  const SLASH: char := '/'

  // ---------- Printing ----------

  function PathParts(g: Gvk): seq<string> {
    (if g.group != "" then ["apis", g.group] else ["api"]) + [g.version, g.kind]
  }

  /** `ProxyGroupVersionKind.Path`. */
  function Path(g: Gvk): string { [SLASH] + Join(PathParts(g), SLASH) }

  /** `ResourcePath` with its `{name}` placeholder filled in. */
  function NamedPath(g: Gvk, name: string): string { Path(g) + [SLASH] + name }

  /** The path of a named object in a namespace, as clients request it. */
  function NamespacedPath(r: ResourceRequest, version: string): string {
    [SLASH] + Join(
      (if r.group != "" then ["apis", r.group, version] else ["api", version])
        + ["namespaces", r.namespace, r.resource, r.name], SLASH)
  }

  // ---------- Parsing ----------

  /** `GetGVKFromURL`: a cluster-scoped collection or named resource. */
  function GvkFromUrl(path: string): Option<Gvk> {
    var parts := Split(Trim(path, {SLASH}), SLASH);
    if parts[0] == "api" && (|parts| == 3 || |parts| == 4) then Some(Gvk("", parts[1], parts[2]))
    else if parts[0] == "apis" && (|parts| == 4 || |parts| == 5) then Some(Gvk(parts[1], parts[2], parts[3]))
    else None
  }

  function TrimPrefixSlash(path: string): string {
    if path != [] && path[0] == SLASH then path[1..] else path
  }

  /** `namespacedResourceRequest`: a named resource in a namespace, with no empty path segment. */
  function NamespacedRequest(path: string): Option<ResourceRequest> {
    var parts := Split(TrimPrefixSlash(path), SLASH);
    if "" in parts then None
    else if |parts| == 6 && parts[0] == "api" && parts[1] == "v1" && parts[2] == "namespaces" then
      Some(ResourceRequest("", parts[3], parts[4], parts[5]))
    else if |parts| == 7 && parts[0] == "apis" && parts[3] == "namespaces" then
      Some(ResourceRequest(parts[1], parts[4], parts[5], parts[6]))
    else None
  }

  // ---------- Round trips ----------

  predicate Segment(s: string) { s != "" && SLASH !in s }

  predicate Printable(g: Gvk) { SLASH !in g.group && Segment(g.version) && Segment(g.kind) }

  /** A non-empty list of segments printed after a slash is found again by both ways of trimming. */
  lemma {:induction false} PrintedSplits(parts: seq<string>)
    requires parts != [] && forall i :: 0 <= i < |parts| ==> Segment(parts[i])
    ensures var path := [SLASH] + Join(parts, SLASH);
      Split(Trim(path, {SLASH}), SLASH) == parts && Split(TrimPrefixSlash(path), SLASH) == parts
  {
    var body := Join(parts, SLASH);
    SegmentsTrimmed(parts);
    assert ([SLASH] + body)[1..] == body;
    assert TrimLeft(body, {SLASH}) == body;
    assert TrimLeft([SLASH] + body, {SLASH}) == body;
    SplitOfJoin(parts, SLASH);
  }

  lemma {:induction false} SegmentsTrimmed(parts: seq<string>)
    requires parts != [] && forall i :: 0 <= i < |parts| ==> Segment(parts[i])
    ensures var body := Join(parts, SLASH); body != [] && Trimmed(body, {SLASH})
    decreases |parts|
  {
    var body := Join(parts, SLASH);
    assert parts[0][0] in parts[0];
    if |parts| == 1 {
      assert body[|body| - 1] in parts[0];
    } else {
      var rest := Join(parts[1..], SLASH);
      SegmentsTrimmed(parts[1..]);
      assert body[|body| - 1] == rest[|rest| - 1];
    }
  }

  lemma {:induction false} JoinAppend(parts: seq<string>, last: string)
    requires parts != []
    ensures Join(parts + [last], SLASH) == Join(parts, SLASH) + [SLASH] + last
    decreases |parts|
  {
    assert (parts + [last])[1..] == parts[1..] + [last];
    if |parts| > 1 {
      JoinAppend(parts[1..], last);
    }
  }

  /** The collection path and the path of any named object give back the group, version and resource. */
  lemma PathRoundTrip(g: Gvk, name: string)
    requires Printable(g) && Segment(name)
    ensures GvkFromUrl(Path(g)) == Some(g) && GvkFromUrl(NamedPath(g, name)) == Some(g)
  {
    var parts := PathParts(g);
    PrintedSplits(parts);
    PrintedSplits(parts + [name]);
    JoinAppend(parts, name);
    assert NamedPath(g, name) == [SLASH] + Join(parts + [name], SLASH);
  }

  /** A printed namespaced path is recovered, given core resources are served under version v1. */
  lemma NamespacedRoundTrip(r: ResourceRequest, version: string)
    requires SLASH !in r.group && Segment(r.namespace) && Segment(r.resource) && Segment(r.name) && Segment(version)
    ensures NamespacedRequest(NamespacedPath(r, version)) == if r.group == "" && version != "v1" then None else Some(r)
  {
    var parts :=
      (if r.group != "" then ["apis", r.group, version] else ["api", version]) + ["namespaces", r.namespace, r.resource, r.name];
    PrintedSplits(parts);
    assert forall i :: 0 <= i < |parts| ==> parts[i] != "";
  }

  /** Without an empty segment, trimming one slash or all of them gives the same segments. */
  lemma TrimmedAlike(path: string)
    requires "" !in Split(TrimPrefixSlash(path), SLASH)
    ensures Split(Trim(path, {SLASH}), SLASH) == Split(TrimPrefixSlash(path), SLASH)
  {
    var body := TrimPrefixSlash(path);
    var parts := Split(body, SLASH);
    JoinOfSplit(body, SLASH);
    SplitPieces(body, SLASH);
    assert forall i :: 0 <= i < |parts| ==> parts[i] in parts;
    SegmentsTrimmed(parts);
    TrimOfTrimmed(body, {SLASH});
    assert TrimLeft(path, {SLASH}) == body;
  }

  /** No path is taken for a cluster-scoped resource by one parser and for a namespaced one by the other. */
  lemma ParsersAreDisjoint(path: string)
    ensures GvkFromUrl(path).None? || NamespacedRequest(path).None?
  {
    if NamespacedRequest(path).Some? {
      TrimmedAlike(path);
    }
  }
  // ---------- The paths as texts ----------

  lemma JoinCons(part: string, rest: seq<string>)
    requires rest != []
    ensures Join([part] + rest, SLASH) == part + [SLASH] + Join(rest, SLASH)
  {
    assert ([part] + rest)[1..] == rest;
  }

  lemma JoinThree(a: string, b: string, c: string)
    ensures Join([a, b, c], SLASH) == a + [SLASH] + (b + [SLASH] + c)
  {
    JoinFew(a, b, c, SLASH);
  }

  /** Resources of the core group are found under /api, all others under /apis and their group. */
  lemma PathText(g: Gvk)
    ensures Path(g) ==
      if g.group == "" then "/api/" + (g.version + "/" + g.kind)
      else "/apis/" + (g.group + "/" + (g.version + "/" + g.kind))
  {
    if g.group == "" {
      assert PathParts(g) == ["api", g.version, g.kind];
      JoinThree("api", g.version, g.kind);
    } else {
      assert PathParts(g) == ["apis"] + [g.group, g.version, g.kind];
      JoinCons("apis", [g.group, g.version, g.kind]);
      JoinThree(g.group, g.version, g.kind);
    }
  }

  /** Objects in a namespace are found under its name. */
  lemma NamespacedPathText(r: ResourceRequest, version: string)
    ensures NamespacedPath(r, version) ==
      var rest := "namespaces/" + (r.namespace + "/" + (r.resource + "/" + r.name));
      if r.group == "" then "/api/" + (version + "/" + rest) else "/apis/" + (r.group + "/" + (version + "/" + rest))
  {
    var tail := [r.namespace, r.resource, r.name];
    JoinThree(r.namespace, r.resource, r.name);
    JoinCons("namespaces", tail);
    var named := ["namespaces"] + tail;
    JoinCons(version, named);
    if r.group == "" {
      JoinCons("api", [version] + named);
      assert ["api", version] + ["namespaces", r.namespace, r.resource, r.name] == ["api"] + ([version] + named);
    } else {
      JoinCons(r.group, [version] + named);
      JoinCons("apis", [r.group] + ([version] + named));
      assert ["apis", r.group, version] + ["namespaces", r.namespace, r.resource, r.name] ==
        ["apis"] + ([r.group] + ([version] + named));
    }
  }
  // ---------- Nothing else is recognised ----------

  /** The segments of a cluster-scoped path, of a collection or of one named object. */
  predicate ClusterSegments(parts: seq<string>, g: Gvk) {
    || (|parts| >= 3 && parts[..3] == ["api", g.version, g.kind] && g.group == "" && |parts| <= 4)
    || (|parts| >= 4 && parts[..4] == ["apis", g.group, g.version, g.kind] && |parts| <= 5)
  }

  /** A path is recognised as cluster-scoped iff, without slashes at its ends, it has such segments. */
  lemma GvkFromUrlIff(path: string, g: Gvk)
    ensures GvkFromUrl(path) == Some(g) <==>
      exists parts :: FreeOf(parts, SLASH) && ClusterSegments(parts, g) && Join(parts, SLASH) == Trim(path, {SLASH})
  {
    var parts := Split(Trim(path, {SLASH}), SLASH);
    JoinOfSplit(Trim(path, {SLASH}), SLASH);
    SplitPieces(Trim(path, {SLASH}), SLASH);
    if GvkFromUrl(path) == Some(g) {
      assert ClusterSegments(parts, g);
    }
    if other :| FreeOf(other, SLASH) && ClusterSegments(other, g) && Join(other, SLASH) == Trim(path, {SLASH}) {
      SplitOfJoin(other, SLASH);
      assert other == parts;
      SegmentsDecide(parts, g);
    }
  }

  lemma SegmentsDecide(parts: seq<string>, g: Gvk)
    requires ClusterSegments(parts, g)
    ensures parts[0] == "api" && (|parts| == 3 || |parts| == 4) ==> g == Gvk("", parts[1], parts[2])
    ensures parts[0] == "apis" && (|parts| == 4 || |parts| == 5) ==> g == Gvk(parts[1], parts[2], parts[3])
    ensures (parts[0] == "api" && (|parts| == 3 || |parts| == 4)) || (parts[0] == "apis" && (|parts| == 4 || |parts| == 5))
    ensures "api" != "apis"
  {
    assert |"api"| != |"apis"|;
    assert |parts| >= 3 && parts[..3] == ["api", g.version, g.kind] ==>
      parts[..3][0] == "api" && parts[..3][1] == g.version && parts[..3][2] == g.kind;
    assert |parts| >= 4 && parts[..4] == ["apis", g.group, g.version, g.kind] ==>
      parts[..4][0] == "apis" && parts[..4][1] == g.group && parts[..4][2] == g.version && parts[..4][3] == g.kind;
  }

  function NamespacedParts(r: ResourceRequest, version: string): seq<string> {
    (if r.group != "" then ["apis", r.group, version] else ["api", version]) + ["namespaces", r.namespace, r.resource, r.name]
  }

  lemma RecognisedParts(path: string, r: ResourceRequest) returns (version: string)
    requires NamespacedRequest(path) == Some(r)
    ensures Split(TrimPrefixSlash(path), SLASH) == NamespacedParts(r, version)
    ensures "" !in Split(TrimPrefixSlash(path), SLASH)
  {
    var parts := Split(TrimPrefixSlash(path), SLASH);
    if |parts| == 6 {
      version := parts[1];
      assert parts == ["api", parts[1], "namespaces", parts[3], parts[4], parts[5]];
      assert r.group == "";
    } else {
      version := parts[2];
      assert parts == ["apis", parts[1], parts[2], "namespaces", parts[4], parts[5], parts[6]];
      assert parts[1] in parts;
    }
  }

  lemma PartsAreSegments(r: ResourceRequest, version: string)
    requires FreeOf(NamespacedParts(r, version), SLASH) && "" !in NamespacedParts(r, version)
    ensures Segment(version) && Segment(r.namespace) && Segment(r.resource) && Segment(r.name) && SLASH !in r.group
  {
    var parts := NamespacedParts(r, version);
    var k := if r.group != "" then 3 else 2;
    assert parts[k - 1] == version && parts[k + 1] == r.namespace && parts[k + 2] == r.resource && parts[k + 3] == r.name;
    assert r.group != "" ==> parts[1] == r.group;
  }

  /** A path is recognised as namespaced only when it is the printed path of the request, with or without its first slash. */
  lemma NamespacedIsPrinted(path: string, r: ResourceRequest) returns (version: string)
    requires NamespacedRequest(path) == Some(r)
    ensures NamespacedPath(r, version) == (if path != [] && path[0] == SLASH then path else [SLASH] + path)
    ensures Segment(version) && Segment(r.namespace) && Segment(r.resource) && Segment(r.name) && SLASH !in r.group
  {
    version := RecognisedParts(path, r);
    JoinOfSplit(TrimPrefixSlash(path), SLASH);
    SplitPieces(TrimPrefixSlash(path), SLASH);
    PartsAreSegments(r, version);
    assert NamespacedPath(r, version) == [SLASH] + Join(NamespacedParts(r, version), SLASH);
  }
}
