/** The Kubernetes naming rules the repository leans on: DNS names, label syntax, service account usernames. */
module Kubernetes {
  import opened Text
  import opened Wrappers

  predicate IsLowerAlphanumeric(c: char) { 'a' <= c <= 'z' || '0' <= c <= '9' }

  predicate IsAlphanumeric(c: char) { IsLowerAlphanumeric(c) || 'A' <= c <= 'Z' }

  predicate IsDnsPart(s: string) {
    && s != []
    && s[0] != '-' && s[|s| - 1] != '-'
    && forall i :: 0 <= i < |s| ==> IsLowerAlphanumeric(s[i]) || s[i] == '-'
  }

  /** DNS label of RFC 1123: what a namespace may be called. */
  predicate IsDnsLabel(s: string) { |s| <= 63 && IsDnsPart(s) }

  /** DNS subdomain of RFC 1123: what a service account may be called. */
  predicate IsDnsSubdomain(s: string) {
    |s| <= 253 && forall i :: 0 <= i < |Split(s, '.')| ==> IsDnsPart(Split(s, '.')[i])
  }

  const SERVICE_ACCOUNT_PREFIX := "system:serviceaccount:"
  const SERVICE_ACCOUNT_GROUP_PREFIX := "system:serviceaccounts:"
  const ALL_SERVICE_ACCOUNTS := "system:serviceaccounts"
  const ALL_AUTHENTICATED := "system:authenticated"

  function MakeUsername(namespace: string, name: string): string {
    SERVICE_ACCOUNT_PREFIX + (namespace + [':'] + name)
  }

  /** `serviceaccount.SplitUsername`: the namespace and name of a service account's username. */
  function SplitUsername(username: string): Option<(string, string)> {
    if !HasPrefix(username, SERVICE_ACCOUNT_PREFIX) then None
    else
      var parts := Split(username[|SERVICE_ACCOUNT_PREFIX|..], ':');
      if |parts| == 2 && IsDnsSubdomain(parts[1]) && IsDnsLabel(parts[0]) then Some((parts[0], parts[1])) else None
  }

  /** The username a service account splits from is the one made from its parts, and from no others. */
  lemma SplitUsernameInverts(username: string, namespace: string, name: string)
    requires SplitUsername(username).Some?
    ensures username == MakeUsername(namespace, name) <==> SplitUsername(username) == Some((namespace, name))
  {
    var rest := username[|SERVICE_ACCOUNT_PREFIX|..];
    var parts := Split(rest, ':');
    JoinOfSplit(rest, ':');
    SplitPieces(rest, ':');
    assert Join(parts, ':') == parts[0] + [':'] + parts[1];
    assert username == SERVICE_ACCOUNT_PREFIX + rest;
    if username == MakeUsername(namespace, name) {
      assert MakeUsername(namespace, name)[|SERVICE_ACCOUNT_PREFIX|..] == namespace + [':'] + name;
      OneSeparator(parts[0], parts[1], namespace, name, ':');
    }
  }

  /** Every account with a valid namespace and name has a username that splits back into them. */
  lemma SplitOfMadeUsername(namespace: string, name: string)
    requires IsDnsLabel(namespace) && IsDnsSubdomain(name)
    ensures SplitUsername(MakeUsername(namespace, name)) == Some((namespace, name))
  {
    var rest := namespace + [':'] + name;
    assert MakeUsername(namespace, name)[|SERVICE_ACCOUNT_PREFIX|..] == rest;
    assert ':' !in namespace;
    SubdomainHasNoColon(name);
    SplitHead(namespace, name, ':');
    SplitHead(name, [], ':');
  }

  lemma FirstSeparator(head: string, tail: string, sep: char)
    requires sep !in head
    ensures var s := head + [sep] + tail;
      s[|head|] == sep && (forall i :: 0 <= i < |head| ==> s[i] != sep) && s[..|head|] == head && s[|head| + 1..] == tail
  {
    var s := head + [sep] + tail;
    assert forall i :: 0 <= i < |head| ==> s[i] == head[i] && head[i] in head;
  }

  /** Separator-free heads before a separator are told apart, whatever follows. */
  lemma EqualHeads(a: string, x: string, b: string, y: string, sep: char)
    requires sep !in a && sep !in b && a + [sep] + x == b + [sep] + y
    ensures a == b && x == y
  {
    FirstSeparator(a, x, sep);
    FirstSeparator(b, y, sep);
  }

  /** A text with exactly one separator splits around it in one way. */
  lemma OneSeparator(a: string, b: string, x: string, y: string, sep: char)
    requires sep !in a && sep !in b && a + [sep] + b == x + [sep] + y
    ensures a == x && b == y
  {
    var s := a + [sep] + b;
    assert s[|x|] == sep;
    FirstSeparator(a, b, sep);
    assert forall i :: |a| < i < |s| ==> s[i] in b;
    assert |x| == |a|;
    assert x == s[..|x|] && y == s[|x| + 1..];
  }

  // ---------- Label syntax ----------

  predicate IsLabelPart(s: string) {
    && 1 <= |s| <= 63
    && IsAlphanumeric(s[0]) && IsAlphanumeric(s[|s| - 1])
    && forall i :: 0 <= i < |s| ==> IsAlphanumeric(s[i]) || s[i] in {'-', '_', '.'}
  }

  /** A label key: a name, optionally prefixed by a DNS subdomain and a slash. */
  predicate IsLabelKey(s: string) {
    var parts := Split(s, '/');
    if |parts| == 1 then IsLabelPart(parts[0])
    else |parts| == 2 && IsDnsSubdomain(parts[0]) && IsLabelPart(parts[1])
  }

  predicate IsLabelValue(s: string) { s == [] || IsLabelPart(s) }

  lemma SubdomainHasNoColon(s: string)
    requires IsDnsSubdomain(s)
    ensures ':' !in s
  {
    JoinOfSplit(s, '.');
    JoinChars(Split(s, '.'), '.', ':');
  }

  lemma LabelKeyHasNoColon(s: string)
    requires IsLabelKey(s)
    ensures ':' !in s
  {
    var parts := Split(s, '/');
    JoinOfSplit(s, '/');
    JoinChars(parts, '/', ':');
    if |parts| == 2 {
      SubdomainHasNoColon(parts[0]);
    }
  }
}
