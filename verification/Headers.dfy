/** HTTP headers changed in place: removal of hop-by-hop headers. */
module Headers {
  import opened Text

  type Fields = map<string, seq<string>>

  // ---------- Header names ----------

  predicate IsTokenChar(c: char) {
    || 'a' <= c <= 'z' || 'A' <= c <= 'Z' || '0' <= c <= '9'
    || c in {'!', '#', '$', '%', '&', '\'', '*', '+', '-', '.', '^', '_', '`', '|', '~'}
  }

  function Capitalise(s: string): (r: string)
    ensures |r| == |s|
    ensures forall i :: 0 <= i < |s| ==> r[i] == if i == 0 || s[i - 1] == '-' then UpperChar(s[i]) else LowerChar(s[i])
  {
    seq(|s|, i requires 0 <= i < |s| => if i == 0 || s[i - 1] == '-' then UpperChar(s[i]) else LowerChar(s[i]))
  }

  /** `CanonicalHeaderKey`: names with a character no header name may have are left alone. */
  function Canonical(name: string): string {
    if forall i :: 0 <= i < |name| ==> IsTokenChar(name[i]) then Capitalise(name) else name
  }

  const CONNECTION := "Connection"
  const UPGRADE := "Upgrade"

  predicate IsLetter(c: char) { 'a' <= c <= 'z' || 'A' <= c <= 'Z' }

  /** A word of letters has its capitalised form as its canonical name. */
  lemma CanonicalWord(word: string, name: string)
    requires |word| == |name| > 0 && name[0] == UpperChar(word[0])
    requires forall i :: 0 <= i < |word| ==> IsLetter(word[i])
    requires forall i :: 1 <= i < |word| ==> name[i] == LowerChar(word[i])
    ensures Canonical(word) == name
  {
    assert forall i :: 0 <= i < |word| ==> IsTokenChar(word[i]) && word[i] != '-';
    assert Capitalise(word) == name;
  }

  lemma CanonicalConnection()
    ensures Canonical("connection") == CONNECTION && Canonical(CONNECTION) == CONNECTION
  {
    CanonicalWord("connection", CONNECTION);
    CanonicalWord(CONNECTION, CONNECTION);
  }

  lemma CanonicalUpgrade()
    ensures Canonical("upgrade") == UPGRADE && Canonical(UPGRADE) == UPGRADE
  {
    CanonicalWord("upgrade", UPGRADE);
    CanonicalWord(UPGRADE, UPGRADE);
  }

  lemma {:induction false} CanonicalConstants()
    ensures Canonical("connection") == CONNECTION && Canonical(CONNECTION) == CONNECTION
    ensures Canonical("upgrade") == UPGRADE && Canonical(UPGRADE) == UPGRADE
    ensures CONNECTION != UPGRADE
  {
    CanonicalConnection();
    CanonicalUpgrade();
    assert CONNECTION[0] != UPGRADE[0];
  }

  function Values(fields: Fields, name: string): seq<string> {
    if Canonical(name) in fields then fields[Canonical(name)] else []
  }

  function First(fields: Fields, name: string): string {
    if Values(fields, name) == [] then "" else Values(fields, name)[0]
  }

  // ---------- Connection tokens ----------

  /** The blanks `textproto.TrimString` removes. */
  const HEADER_BLANKS: set<char> := {' ', '\t', '\n', '\r'}

  /** The optional whitespace around list elements, as `httpguts` trims it. */
  const OWS: set<char> := {' ', '\t'}

  /** The header fields a Connection value names. */
  function NamedBy(value: string): set<string> {
    set i | 0 <= i < |Split(value, ',')| && Trim(Split(value, ',')[i], HEADER_BLANKS) != ""
      :: Canonical(Trim(Split(value, ',')[i], HEADER_BLANKS))
  }

  function NamedByAll(values: seq<string>): set<string> {
    set j, name | 0 <= j < |values| && name in NamedBy(values[j]) :: name
  }

  predicate SameToken(a: string, b: string) {
    |a| == |b| && forall i :: 0 <= i < |a| ==> LowerChar(a[i]) == LowerChar(b[i])
  }

  /** `httpguts.HeaderValuesContainsToken`. */
  predicate ContainsToken(values: seq<string>, token: string) {
    exists j, i :: 0 <= j < |values| && 0 <= i < |Split(values[j], ',')| && SameToken(Trim(Split(values[j], ',')[i], OWS), token)
  }

  /** The type of upgrade the request asks for, if it asks for one. */
  function UpgradeType(fields: Fields): string {
    if ContainsToken(Values(fields, CONNECTION), "upgrade") then First(fields, UPGRADE) else ""
  }

  /**
   * The removal section 7.6.1 of RFC 9110 asks for, as far as Connection names fields: it and every field it
   * names are removed; a requested upgrade is passed on with its first type.
   */
  function WithoutHopByHop(fields: Fields): Fields {
    var kept := fields - (NamedByAll(Values(fields, CONNECTION)) + {CONNECTION});
    if UpgradeType(fields) == "" then kept
    else kept[CONNECTION := ["upgrade"]][UPGRADE := [UpgradeType(fields)]]
  }

  class Header {
    var fields: Fields

    constructor (fields: Fields)
      ensures this.fields == fields
    {
      this.fields := fields;
    }

    method Del(name: string)
      modifies this
      ensures fields == old(fields) - {Canonical(name)}
    {
      fields := fields - {Canonical(name)};
    }

    method Set(name: string, value: string)
      modifies this
      ensures fields == old(fields)[Canonical(name) := [value]]
    {
      fields := fields[Canonical(name) := [value]];
    }

    method RemovingHopByHopHeaders()
      modifies this
      ensures fields == WithoutHopByHop(old(fields))
    {
      CanonicalConstants();
      var requestUpgradeType := "";
      if ContainsToken(Values(fields, "connection"), "upgrade") {
        requestUpgradeType := First(fields, "upgrade");
      }
      var values := Values(fields, "connection");
      RemoveAllNamed(values);
      if requestUpgradeType != "" {
        Set("connection", "upgrade");
        Set("upgrade", requestUpgradeType);
        RemoveThenSet(old(fields), NamedByAll(values), CONNECTION, ["upgrade"]);
        return;
      }
      Del("connection");
      assert fields == old(fields) - (NamedByAll(values) + {CONNECTION});
    }

    /** Removes every field the Connection values name. */
    method RemoveAllNamed(values: seq<string>)
      modifies this
      ensures fields == old(fields) - NamedByAll(values)
    {
      for j := 0 to |values|
        invariant fields == old(fields) - NamedByAll(values[..j])
      {
        RemoveNamed(values[j]);
        NamedByAllSnoc(values[..j], values[j]);
        assert values[..j + 1] == values[..j] + [values[j]];
      }
      assert values[..|values|] == values;
    }

    /** Removes every field one Connection value names. */
    method RemoveNamed(value: string)
      modifies this
      ensures fields == old(fields) - NamedBy(value)
    {
      var parts := Split(value, ',');
      ghost var gone: set<string> := {};
      for i := 0 to |parts|
        invariant fields == old(fields) - gone
        invariant gone == set k | 0 <= k < i && Trim(parts[k], HEADER_BLANKS) != "" :: Canonical(Trim(parts[k], HEADER_BLANKS))
      {
        var name := Trim(parts[i], HEADER_BLANKS);
        if name != "" {
          Del(name);
          gone := gone + {Canonical(name)};
        }
      }
    }
  }

  lemma NamedByAllSnoc(values: seq<string>, value: string)
    ensures NamedByAll(values + [value]) == NamedByAll(values) + NamedBy(value)
  {
    var all := values + [value];
    assert all[|values|] == value && forall j :: 0 <= j < |values| ==> all[j] == values[j];
    forall name | name in NamedByAll(values) + NamedBy(value) ensures name in NamedByAll(all) {
      if name in NamedByAll(values) {
        var j :| 0 <= j < |values| && name in NamedBy(values[j]);
        assert name in NamedBy(all[j]);
      } else {
        assert name in NamedBy(all[|values|]);
      }
    }
  }

  // ---------- Idempotence ----------

  lemma RemoveThenSet(fields: Fields, named: set<string>, name: string, value: seq<string>)
    ensures (fields - named)[name := value] == (fields - (named + {name}))[name := value]
  {
  }

  /** Writing the same two fields again after removing them changes nothing. */
  lemma SetAgain(fields: Fields, a: string, x: seq<string>, b: string, y: seq<string>)
    requires a in fields && fields[a] == x && b in fields && fields[b] == y
    ensures (fields - ({b} + {a}))[a := x][b := y] == fields
  {
  }

  /** A value that is a single trimmed token. */
  lemma SingleToken(token: string)
    requires token != "" && ',' !in token && Trimmed(token, HEADER_BLANKS) && Trimmed(token, OWS)
    ensures NamedByAll([token]) == {Canonical(token)} && ContainsToken([token], token)
  {
    SplitHead(token, [], ',');
    TrimOfTrimmed(token, HEADER_BLANKS);
    TrimOfTrimmed(token, OWS);
    var parts := Split(token, ',');
    assert parts == [token];
    assert SameToken(Trim(parts[0], OWS), token) && [token][0] == token;
    assert Canonical(Trim(parts[0], HEADER_BLANKS)) in NamedBy(token);
    assert NamedBy(token) == {Canonical(token)};
    NamedByAllSnoc([], token);
    assert [] + [token] == [token] && NamedByAll([]) == {};
  }

  /** Removing a second time changes nothing. */
  lemma {:induction false} RemovalIsIdempotent(fields: Fields)
    ensures WithoutHopByHop(WithoutHopByHop(fields)) == WithoutHopByHop(fields)
  {
    CanonicalConstants();
    var once, t := WithoutHopByHop(fields), UpgradeType(fields);
    if t == "" {
      NothingToRemove(once);
    } else {
      SingleToken("upgrade");
      SetAgain(once, CONNECTION, ["upgrade"], UPGRADE, [t]);
    }
  }

  lemma NothingToRemove(fields: Fields)
    requires CONNECTION !in fields
    ensures WithoutHopByHop(fields) == fields
  {
    CanonicalConstants();
    assert Values(fields, CONNECTION) == [] && NamedByAll([]) == {};
    assert fields - ({} + {CONNECTION}) == fields;
  }

  /** An upgrade is passed on: asked for by a Connection token, with a first type that is not empty. */
  predicate Upgraded(fields: Fields) {
    && CONNECTION in fields && ContainsToken(fields[CONNECTION], "upgrade")
    && UPGRADE in fields && fields[UPGRADE] != [] && fields[UPGRADE][0] != ""
  }

  /** No field a Connection token names survives, but for the upgrade that is passed on; all others are untouched. */
  lemma RemovalIsExact(fields: Fields, name: string)
    ensures var after, named := WithoutHopByHop(fields), if CONNECTION in fields then NamedByAll(fields[CONNECTION]) else {};
      && (name != CONNECTION && name != UPGRADE ==>
            (name in after <==> name in fields && name !in named) && (name in after ==> after[name] == fields[name]))
      && (CONNECTION in after <==> Upgraded(fields))
      && (Upgraded(fields) ==>
            after[CONNECTION] == ["upgrade"] && UPGRADE in after && after[UPGRADE] == [fields[UPGRADE][0]])
      && (!Upgraded(fields) ==> (UPGRADE in after <==> UPGRADE in fields && UPGRADE !in named))
      && (!Upgraded(fields) && UPGRADE in after ==> after[UPGRADE] == fields[UPGRADE])
  {
    CanonicalConstants();
  }

  // ---------- Connection values as written ----------

  /** A token of a list, with the blanks around it. */
  datatype Token = Token(left: string, text: string, right: string)

  predicate Spaces(s: string) { forall c :: c in s ==> c == ' ' || c == '\t' }

  /** Tokens as section 5.6.1 of RFC 9110 allows them in a list: free of commas and of blanks at their ends. */
  predicate WellWritten(t: Token) {
    && Spaces(t.left) && Spaces(t.right) && ',' !in t.text
    && (t.text == "" || (t.text[0] !in {' ', '\t', '\n', '\r'} && t.text[|t.text| - 1] !in {' ', '\t', '\n', '\r'}))
  }

  function WriteToken(t: Token): string { t.left + t.text + t.right }

  /** A Connection value with these tokens. */
  function WriteTokens(ts: seq<Token>): string {
    Join(seq(|ts|, i requires 0 <= i < |ts| => WriteToken(ts[i])), ',')
  }

  lemma WrittenTokensSplit(ts: seq<Token>)
    requires ts != [] && forall i :: 0 <= i < |ts| ==> WellWritten(ts[i])
    ensures |Split(WriteTokens(ts), ',')| == |ts|
    ensures forall i :: 0 <= i < |ts| ==>
      Trim(Split(WriteTokens(ts), ',')[i], HEADER_BLANKS) == ts[i].text && Trim(Split(WriteTokens(ts), ',')[i], OWS) == ts[i].text
  {
    var parts := seq(|ts|, i requires 0 <= i < |ts| => WriteToken(ts[i]));
    SplitOfJoin(parts, ',');
    forall i | 0 <= i < |ts|
      ensures Trim(parts[i], HEADER_BLANKS) == ts[i].text && Trim(parts[i], OWS) == ts[i].text
    {
      TrimPadded(ts[i].left, ts[i].text, ts[i].right, HEADER_BLANKS);
      TrimPadded(ts[i].left, ts[i].text, ts[i].right, OWS);
    }
  }

  /** A value names the fields of its tokens, by their canonical names, and nothing else. */
  lemma NamedByTokens(ts: seq<Token>, name: string)
    requires ts != [] && forall i :: 0 <= i < |ts| ==> WellWritten(ts[i])
    ensures name in NamedBy(WriteTokens(ts)) <==> exists t :: t in ts && t.text != "" && Canonical(t.text) == name
  {
    WrittenTokensSplit(ts);
    if t :| t in ts && t.text != "" && Canonical(t.text) == name {
      var i :| 0 <= i < |ts| && ts[i] == t;
      assert Trim(Split(WriteTokens(ts), ',')[i], HEADER_BLANKS) == t.text;
    }
  }

  /** A token is found in whatever case it is written. */
  lemma TokenIsFound(ts: seq<Token>, token: string)
    requires ts != [] && forall i :: 0 <= i < |ts| ==> WellWritten(ts[i])
    ensures ContainsToken([WriteTokens(ts)], token) <==> exists t :: t in ts && SameButCase(t.text, token)
  {
    WrittenTokensSplit(ts);
    var value := WriteTokens(ts);
    forall t: Token ensures SameToken(t.text, token) <==> SameButCase(t.text, token) {
      SameTokenIff(t.text, token);
    }
    if t :| t in ts && SameButCase(t.text, token) {
      var i :| 0 <= i < |ts| && ts[i] == t;
      assert [value][0] == value && SameToken(Trim(Split(value, ',')[i], OWS), token);
    }
    if ContainsToken([value], token) {
      var j, i :| 0 <= j < |[value]| && 0 <= i < |Split([value][j], ',')| && SameToken(Trim(Split([value][j], ',')[i], OWS), token);
      assert ts[i] in ts;
    }
  }

  lemma SameTokenIff(a: string, b: string)
    ensures SameToken(a, b) <==> SameButCase(a, b)
  {
    if |a| == |b| {
      forall i | 0 <= i < |a| ensures LowerChar(a[i]) == LowerChar(b[i]) <==> SameLetter(a[i], b[i]) {
        CaseOfLetters(a[i], b[i]);
      }
    }
  }

  /** Removal with one Connection value, in terms of its tokens: what they name is gone, whatever its case. */
  lemma RemovalByTokens(fields: Fields, ts: seq<Token>, name: string)
    requires ts != [] && forall i :: 0 <= i < |ts| ==> WellWritten(ts[i])
    requires "Connection" in fields && fields["Connection"] == [WriteTokens(ts)]
    requires name != "Connection" && name != "Upgrade"
    ensures name in WithoutHopByHop(fields) <==> name in fields && !exists t :: t in ts && t.text != "" && Canonical(t.text) == name
    ensures "Connection" in WithoutHopByHop(fields) <==>
      && (exists t :: t in ts && SameButCase(t.text, "upgrade"))
      && "Upgrade" in fields && fields["Upgrade"] != [] && fields["Upgrade"][0] != ""
  {
    RemovalIsExact(fields, name);
    NamedByTokens(ts, name);
    TokenIsFound(ts, "upgrade");
    NamedByAllSnoc([], WriteTokens(ts));
    assert [] + [WriteTokens(ts)] == [WriteTokens(ts)] && NamedByAll([]) == {};
  }

  // ---------- Canonical names ----------

  predicate IsToken(name: string) { forall i :: 0 <= i < |name| ==> IsTokenChar(name[i]) }

  /** Names that differ only in case have one canonical name. */
  lemma {:induction false} CanonicalIgnoresCase(a: string, b: string)
    requires IsToken(a) && SameButCase(a, b)
    ensures Canonical(a) == Canonical(b)
  {
    forall i | 0 <= i < |a|
      ensures IsTokenChar(b[i]) && (a[i] == '-' <==> b[i] == '-')
      ensures LowerChar(a[i]) == LowerChar(b[i]) && UpperChar(a[i]) == UpperChar(b[i])
    {
      assert SameLetter(a[i], b[i]);
      CaseOfLetters(a[i], b[i]);
    }
    assert Capitalise(a) == Capitalise(b);
  }

  /** Around a dash the canonical name is that of the two words; of a word it is the word capitalised. */
  lemma {:induction false} CanonicalOfWords(a: string, b: string)
    requires IsToken(a) && IsToken(b)
    ensures Canonical(a + "-" + b) == Canonical(a) + "-" + Canonical(b)
    ensures a != "" && '-' !in a ==> Canonical(a) == [UpperChar(a[0])] + LowerAll(a[1..])
  {
    var name := a + "-" + b;
    assert IsToken(name);
    assert Capitalise(name) == Capitalise(a) + "-" + Capitalise(b);
    if a != "" && '-' !in a {
      assert forall i :: 0 <= i < |a| ==> a[i] in a;
      assert Capitalise(a) == [UpperChar(a[0])] + LowerAll(a[1..]);
    }
  }

  function LowerAll(s: string): (r: string)
    ensures |r| == |s| && forall i :: 0 <= i < |s| ==> r[i] == LowerChar(s[i])
  {
    seq(|s|, i requires 0 <= i < |s| => LowerChar(s[i]))
  }
}
