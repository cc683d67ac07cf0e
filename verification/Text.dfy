/** The part of Go's `strings` package the repository relies on, over sequences of characters. */
module Text {
  /** The characters `strings.TrimSpace` removes. */
  const SPACE: set<char> := {' ', '\t', '\n', '\r', '\U{000B}', '\U{000C}', '\U{0085}', '\U{00A0}'}

  /** Lower case, for ASCII letters. */
  function LowerChar(c: char): char { if 'A' <= c <= 'Z' then (c as int + 32) as char else c }

  function UpperChar(c: char): char { if 'a' <= c <= 'z' then (c as int - 32) as char else c }

  /** The place of each letter in the alphabet. */
  const LETTERS: map<char, int> :=
    (map c | 'a' <= c <= 'z' :: c as int - 'a' as int) + (map c | 'A' <= c <= 'Z' :: c as int - 'A' as int)

  predicate SameLetter(c: char, d: char) { c == d || (c in LETTERS && d in LETTERS && LETTERS[c] == LETTERS[d]) }

  /** The two texts differ at most in the case of letters. */
  predicate SameButCase(a: string, b: string) {
    |a| == |b| && forall i :: 0 <= i < |a| ==> SameLetter(a[i], b[i])
  }

  /** Both ways of changing case forget it and nothing else; each gives the letters it is named for. */
  lemma CaseOfLetters(c: char, d: char)
    ensures LowerChar(c) == LowerChar(d) <==> SameLetter(c, d)
    ensures UpperChar(c) == UpperChar(d) <==> SameLetter(c, d)
    ensures c in LETTERS ==> 'a' <= LowerChar(c) <= 'z' && 'A' <= UpperChar(c) <= 'Z'
    ensures c !in LETTERS ==> LowerChar(c) == UpperChar(c) == c
  {
  }

  // ---------- Split and Join ----------

  /** `strings.Split` for a one-character separator: never empty. */
  function Split(s: string, sep: char): (parts: seq<string>)
    ensures |parts| >= 1
  {
    if s == [] then [[]]
    else
      var rest := Split(s[1..], sep);
      if s[0] == sep then [[]] + rest else [[s[0]] + rest[0]] + rest[1..]
  }

  /** `strings.Join` for a one-character separator. */
  function Join(parts: seq<string>, sep: char): string {
    if |parts| == 0 then []
    else if |parts| == 1 then parts[0]
    else parts[0] + [sep] + Join(parts[1..], sep)
  }

  /** No part contains the separator. */
  predicate FreeOf(parts: seq<string>, sep: char) {
    forall i :: 0 <= i < |parts| ==> sep !in parts[i]
  }

  lemma {:induction false} SplitPieces(s: string, sep: char)
    ensures FreeOf(Split(s, sep), sep)
  {
    if s != [] {
      SplitPieces(s[1..], sep);
    }
  }

  lemma {:induction false} SplitCount(s: string, sep: char)
    ensures |Split(s, sep)| >= 2 <==> sep in s
  {
    if s != [] {
      SplitCount(s[1..], sep);
      assert s == [s[0]] + s[1..];
    }
  }

  lemma {:induction false} JoinOfSplit(s: string, sep: char)
    ensures Join(Split(s, sep), sep) == s
  {
    if s != [] {
      JoinOfSplit(s[1..], sep);
      var rest := Split(s[1..], sep);
      var parts := Split(s, sep);
      if s[0] == sep {
        assert parts[1..] == rest;
      } else if |rest| > 1 {
        assert parts[1..] == rest[1..];
      }
    }
  }

  lemma JoinFew(a: string, b: string, c: string, sep: char)
    ensures Join([a, b], sep) == a + [sep] + b
    ensures Join([a, b, c], sep) == a + [sep] + (b + [sep] + c)
  {
    assert [a, b][1..] == [b];
    assert [b, c][1..] == [c];
    assert Join([b, c], sep) == b + [sep] + c;
    assert [a, b, c][1..] == [b, c];
  }

  /** A separator-free head is split off whole. */
  lemma {:induction false} SplitHead(head: string, tail: string, sep: char)
    requires sep !in head
    ensures Split(head + [sep] + tail, sep) == [head] + Split(tail, sep)
    ensures Split(head, sep) == [head]
  {
    var s := head + [sep] + tail;
    if head == [] {
      assert s[1..] == tail;
    } else {
      var rest := head[1..];
      assert head == [head[0]] + rest;
      SplitHead(rest, tail, sep);
      assert s[1..] == rest + [sep] + tail;
      assert s[0] == head[0] != sep;
    }
  }

  lemma {:induction false} SplitOfJoin(parts: seq<string>, sep: char)
    requires |parts| >= 1 && FreeOf(parts, sep)
    ensures Split(Join(parts, sep), sep) == parts
  {
    if |parts| == 1 {
      SplitHead(parts[0], [], sep);
    } else {
      SplitHead(parts[0], Join(parts[1..], sep), sep);
      SplitOfJoin(parts[1..], sep);
    }
  }

  /** Joining is injective on non-empty lists of separator-free parts. */
  lemma JoinInjective(a: seq<string>, b: seq<string>, sep: char)
    requires |a| >= 1 && |b| >= 1 && FreeOf(a, sep) && FreeOf(b, sep)
    requires Join(a, sep) == Join(b, sep)
    ensures a == b
  {
    SplitOfJoin(a, sep);
    SplitOfJoin(b, sep);
  }

  lemma {:induction false} SplitSizes(a: string, b: string, sep: char)
    ensures |Split(a + [sep] + b, sep)| == |Split(a, sep)| + |Split(b, sep)|
  {
    var s := a + [sep] + b;
    if a == [] {
      assert s[1..] == b;
    } else {
      assert s[0] == a[0] && s[1..] == a[1..] + [sep] + b;
      SplitSizes(a[1..], b, sep);
    }
  }

  /** A joined text splits into no fewer parts than were joined, and into as many only if none had the separator. */
  lemma {:induction false} SplitOfJoinSize(parts: seq<string>, sep: char)
    requires |parts| >= 1
    ensures |Split(Join(parts, sep), sep)| >= |parts|
    ensures |Split(Join(parts, sep), sep)| == |parts| <==> FreeOf(parts, sep)
  {
    SplitCount(parts[0], sep);
    if |parts| > 1 {
      var rest := parts[1..];
      SplitSizes(parts[0], Join(rest, sep), sep);
      SplitOfJoinSize(rest, sep);
      assert FreeOf(parts, sep) <==> sep !in parts[0] && FreeOf(rest, sep) by {
        assert forall i :: 1 <= i < |parts| ==> parts[i] == rest[i - 1];
      }
    }
  }

  /** Joining the last parts first changes nothing. */
  lemma {:induction false} JoinTail(front: seq<string>, back: seq<string>, sep: char)
    requires back != []
    ensures Join(front + [Join(back, sep)], sep) == Join(front + back, sep)
  {
    if front == [] {
      assert front + back == back;
    } else {
      JoinTail(front[1..], back, sep);
      assert (front + [Join(back, sep)])[1..] == front[1..] + [Join(back, sep)];
      assert (front + back)[1..] == front[1..] + back;
    }
  }

  /** Nor does joining the first two. */
  lemma JoinHead(a: string, b: string, rest: seq<string>, sep: char)
    requires rest != []
    ensures Join([a + [sep] + b] + rest, sep) == Join([a, b] + rest, sep)
  {
    assert ([a + [sep] + b] + rest)[1..] == rest;
    assert ([a, b] + rest)[1..] == [b] + rest;
    assert ([b] + rest)[1..] == rest;
    assert a + [sep] + (b + [sep] + Join(rest, sep)) == a + [sep] + b + [sep] + Join(rest, sep);
  }

  /** A character other than the separator occurs in a joined text iff it occurs in some part. */
  lemma {:induction false} JoinChars(parts: seq<string>, sep: char, c: char)
    requires c != sep
    ensures c in Join(parts, sep) <==> exists i :: 0 <= i < |parts| && c in parts[i]
  {
    if |parts| > 1 {
      JoinChars(parts[1..], sep, c);
      var rest := parts[1..];
      if i :| 0 <= i < |parts| && c in parts[i] {
        assert i > 0 ==> rest[i - 1] == parts[i];
      }
      if i :| 0 <= i < |rest| && c in rest[i] {
        assert parts[i + 1] == rest[i];
      }
    }
  }

  // ---------- Prefixes, suffixes and searching ----------

  predicate HasPrefix(s: string, prefix: string) { prefix <= s }

  predicate HasSuffix(s: string, suffix: string) {
    |suffix| <= |s| && s[|s| - |suffix|..] == suffix
  }

  /** The part occurs in the text at the given offset. */
  predicate OccursAt(s: string, i: nat, part: string) {
    i + |part| <= |s| && s[i..i + |part|] == part
  }

  /** `strings.Index`: the leftmost occurrence, or -1. */
  method Index(s: string, part: string) returns (i: int)
    ensures -1 <= i
    ensures i >= 0 ==> OccursAt(s, i, part) && forall j: nat :: j < i ==> !OccursAt(s, j, part)
    ensures i < 0 ==> forall j: nat :: !OccursAt(s, j, part)
  {
    i := 0;
    while i + |part| <= |s|
      invariant 0 <= i
      invariant forall j: nat :: j < i ==> !OccursAt(s, j, part)
    {
      if s[i..i + |part|] == part {
        return;
      }
      i := i + 1;
    }
    i := -1;
  }

  /** `strings.Cut` at the first occurrence of a character: the text before it and after it. */
  function Cut(s: string, c: char): (r: (string, string, bool))
    ensures r.2 <==> c in s
    ensures r.2 ==> c !in r.0 && s == r.0 + [c] + r.1
  {
    if s == [] then ([], [], false)
    else if s[0] == c then ([], s[1..], true)
    else
      var r := Cut(s[1..], c);
      ([s[0]] + r.0, r.1, r.2)
  }

  // ---------- Trimming ----------

  function TrimLeft(s: string, cut: set<char>): string {
    if s != [] && s[0] in cut then TrimLeft(s[1..], cut) else s
  }

  function TrimRight(s: string, cut: set<char>): string {
    if s != [] && s[|s| - 1] in cut then TrimRight(s[..|s| - 1], cut) else s
  }

  function Trim(s: string, cut: set<char>): string {
    TrimRight(TrimLeft(s, cut), cut)
  }

  function TrimSpace(s: string): string { Trim(s, SPACE) }

  /** Neither end of the text can be trimmed. */
  predicate Trimmed(s: string, cut: set<char>) {
    s == [] || (s[0] !in cut && s[|s| - 1] !in cut)
  }

  predicate AllIn(s: string, cut: set<char>) { forall c :: c in s ==> c in cut }

  lemma {:induction false} TrimLeftParts(s: string, cut: set<char>) returns (left: string)
    ensures s == left + TrimLeft(s, cut) && AllIn(left, cut)
    ensures TrimLeft(s, cut) == [] || TrimLeft(s, cut)[0] !in cut
  {
    if s != [] && s[0] in cut {
      var rest := TrimLeftParts(s[1..], cut);
      left := [s[0]] + rest;
    } else {
      left := [];
    }
  }

  lemma {:induction false} TrimRightParts(s: string, cut: set<char>) returns (right: string)
    ensures s == TrimRight(s, cut) + right && AllIn(right, cut)
    ensures var t := TrimRight(s, cut); t == [] || t[|t| - 1] !in cut
  {
    if s != [] && s[|s| - 1] in cut {
      var rest := TrimRightParts(s[..|s| - 1], cut);
      right := rest + [s[|s| - 1]];
    } else {
      right := [];
    }
  }

  /** Trimming only removes cut characters at the two ends, and removes all of them. */
  lemma TrimParts(s: string, cut: set<char>) returns (left: string, right: string)
    ensures s == left + Trim(s, cut) + right
    ensures AllIn(left, cut) && AllIn(right, cut)
    ensures Trimmed(Trim(s, cut), cut)
  {
    left := TrimLeftParts(s, cut);
    var middle := TrimLeft(s, cut);
    right := TrimRightParts(middle, cut);
    var t := Trim(s, cut);
    assert t != [] ==> t[0] == middle[0];
  }

  lemma TrimOfTrimmed(s: string, cut: set<char>)
    requires Trimmed(s, cut)
    ensures Trim(s, cut) == s
  {
  }
  lemma {:induction false} TrimLeftBlanks(blanks: string, rest: string, cut: set<char>)
    requires AllIn(blanks, cut) && (rest == [] || rest[0] !in cut)
    ensures TrimLeft(blanks + rest, cut) == rest
  {
    if blanks == [] {
      assert blanks + rest == rest;
    } else {
      assert (blanks + rest)[1..] == blanks[1..] + rest;
      assert blanks[0] in cut;
      TrimLeftBlanks(blanks[1..], rest, cut);
    }
  }

  lemma {:induction false} TrimRightBlanks(rest: string, blanks: string, cut: set<char>)
    requires AllIn(blanks, cut) && (rest == [] || rest[|rest| - 1] !in cut)
    ensures TrimRight(rest + blanks, cut) == rest
  {
    if blanks == [] {
      assert rest + blanks == rest;
    } else {
      var front := blanks[..|blanks| - 1];
      assert (rest + blanks)[..|rest + blanks| - 1] == rest + front;
      assert blanks[|blanks| - 1] in cut;
      TrimRightBlanks(rest, front, cut);
    }
  }

  /** Trimming finds the trimmed core of a padded text. */
  lemma TrimPadded(left: string, core: string, right: string, cut: set<char>)
    requires AllIn(left, cut) && AllIn(right, cut) && Trimmed(core, cut)
    ensures Trim(left + core + right, cut) == core
  {
    if core == [] {
      assert left + core + right == (left + right) + [];
      TrimLeftBlanks(left + right, [], cut);
    } else {
      assert left + core + right == left + (core + right);
      TrimLeftBlanks(left, core + right, cut);
      TrimRightBlanks(core, right, cut);
    }
  }

  /** Padding a text changes nothing of what is left after trimming. */
  lemma TrimOfPadded(left: string, s: string, right: string, cut: set<char>)
    requires AllIn(left, cut) && AllIn(right, cut)
    ensures Trim(left + s + right, cut) == Trim(s, cut)
  {
    var l, r := TrimParts(s, cut);
    assert left + s + right == (left + l) + Trim(s, cut) + (r + right);
    TrimPadded(left + l, Trim(s, cut), r + right, cut);
  }
  /** A text longer than all of these, and so none of them. */
  lemma {:induction false} FreshValue(s: set<string>) returns (value: string)
    ensures forall x :: x in s ==> |x| < |value|
    decreases s
  {
    if s == {} {
      value := "";
    } else {
      var x :| x in s;
      value := FreshValue(s - {x});
      if |value| <= |x| {
        value := seq(|x| + 1, _ => 'a');
      }
    }
  }
}
