/** The `*` patterns of API groups: the greedy matcher against the anchored glob reading. */
module Patterns {
  import opened Text

  const STAR: char := '*'

  // ---------- Two readings of a pattern ----------

  /** Anchored glob: `*` stands for any text, everything else for itself, and the whole value is covered. */
  predicate Glob(pattern: string, value: string)
    decreases |pattern|
  {
    if pattern == [] then value == []
    else if pattern[0] == STAR then exists i :: 0 <= i <= |value| && Glob(pattern[1..], value[i..])
    else value != [] && value[0] == pattern[0] && Glob(pattern[1..], value[1..])
  }

  /** The literals occur in order, without overlap, from the given offset on. */
  predicate Placeable(literals: seq<string>, value: string, from: nat)
    decreases |literals|
  {
    literals == [] ||
    exists i :: from <= i <= |value| && OccursAt(value, i, literals[0])
      && Placeable(literals[1..], value, i + |literals[0]|)
  }

  /** No star, the lone star, or a single star at one end of a literal. */
  predicate Simple(pattern: string) {
    var parts := Split(pattern, STAR);
    STAR !in pattern || pattern == [STAR] || (|parts| == 2 && (parts[0] == "" || parts[1] == ""))
  }

  /** What the matcher accepts: simple patterns are anchored, in all others the literals just follow each other. */
  predicate Accepts(pattern: string, value: string) {
    if Simple(pattern) then Glob(pattern, value) else Placeable(Split(pattern, STAR), value, 0)
  }

  // ---------- The matcher ----------

  method MatchPattern(pattern: string, value: string) returns (matches: bool)
    ensures matches <==> Accepts(pattern, value)
  {
    if pattern == "*" {
      assert Glob(pattern[1..], value[|value|..]);
      return true;
    }
    GlobLiteral(pattern, [], value);
    if STAR !in pattern {
      assert pattern + [] == pattern;
      return pattern == value;
    }
    var parts := Split(pattern, STAR);
    JoinOfSplit(pattern, STAR);
    SplitPieces(pattern, STAR);
    if |parts| == 2 {
      assert pattern == parts[0] + [STAR] + parts[1];
      if parts[0] == "" {
        GlobSuffix(parts[1], value);
        assert pattern == [STAR] + parts[1];
        return HasSuffix(value, parts[1]);
      }
      if parts[1] == "" {
        GlobPrefix(parts[0], value);
        assert pattern == parts[0] + [STAR];
        return HasPrefix(value, parts[0]);
      }
    }
    SingleStarOrMore(pattern);
    matches := PlaceGreedily(parts, value);
  }

  /** The general branch: each literal at its leftmost occurrence after the one before. */
  method PlaceGreedily(parts: seq<string>, value: string) returns (placed: bool)
    ensures placed <==> Placeable(parts, value, 0)
  {
    var idx := 0;
    assert parts[0..] == parts;
    for k := 0 to |parts|
      invariant 0 <= idx <= |value|
      invariant Placeable(parts, value, 0) <==> Placeable(parts[k..], value, idx)
    {
      var part := parts[k];
      assert parts[k..] == [part] + parts[k + 1..];
      if part == "" {
        EmptyLiteral(parts[k + 1..], value, idx);
        continue;
      }
      var i := Index(value[idx..], part);
      forall j | idx <= j ensures OccursAt(value, j, part) <==> OccursAt(value[idx..], j - idx, part) {
        OccursShift(value, idx, j - idx, part);
      }
      if i < 0 {
        return false;
      }
      LeftmostIsBest(part, parts[k + 1..], value, idx, idx + i);
      idx := idx + i + |part|;
    }
    placed := true;
  }

  // ---------- Placing literals ----------

  lemma OccursShift(value: string, from: nat, j: nat, part: string)
    requires from <= |value|
    ensures OccursAt(value[from..], j, part) <==> OccursAt(value, from + j, part)
  {
    if from + j + |part| <= |value| {
      assert value[from..][j..j + |part|] == value[from + j..from + j + |part|];
    }
  }

  /** Starting earlier never hurts. */
  lemma PlaceableEarlier(literals: seq<string>, value: string, from: nat, later: nat)
    requires from <= later && Placeable(literals, value, later)
    ensures Placeable(literals, value, from)
  {
  }

  lemma EmptyLiteral(rest: seq<string>, value: string, from: nat)
    requires from <= |value|
    ensures Placeable([""] + rest, value, from) <==> Placeable(rest, value, from)
  {
    var all := [""] + rest;
    assert all[1..] == rest;
    if Placeable(all, value, from) {
      var i :| from <= i <= |value| && OccursAt(value, i, all[0]) && Placeable(all[1..], value, i + |all[0]|);
      PlaceableEarlier(rest, value, from, i);
    }
    if Placeable(rest, value, from) {
      assert OccursAt(value, from, all[0]) && Placeable(all[1..], value, from + |all[0]|);
    }
  }

  /** Taking the leftmost occurrence of the first literal loses no placement. */
  lemma LeftmostIsBest(first: string, rest: seq<string>, value: string, from: nat, at: nat)
    requires from <= at && OccursAt(value, at, first)
    requires forall j :: from <= j < at ==> !OccursAt(value, j, first)
    ensures Placeable([first] + rest, value, from) <==> Placeable(rest, value, at + |first|)
  {
    var all := [first] + rest;
    assert all[1..] == rest;
    if Placeable(all, value, from) {
      var i :| from <= i <= |value| && OccursAt(value, i, all[0]) && Placeable(all[1..], value, i + |all[0]|);
      PlaceableEarlier(rest, value, at + |first|, i + |first|);
    }
    if Placeable(rest, value, at + |first|) {
      assert OccursAt(value, at, all[0]) && Placeable(all[1..], value, at + |all[0]|);
    }
  }

  // ---------- Globs piece by piece ----------

  lemma {:induction false} GlobLiteral(literal: string, rest: string, value: string)
    ensures STAR !in literal ==>
      (Glob(literal + rest, value) <==> literal <= value && Glob(rest, value[|literal|..]))
    decreases |literal|
  {
    if literal == [] {
      assert literal + rest == rest;
    } else {
      assert (literal + rest)[1..] == literal[1..] + rest;
      if value != [] {
        GlobLiteral(literal[1..], rest, value[1..]);
        assert literal <= value ==> value[1..][|literal| - 1..] == value[|literal|..];
        assert literal <= value <==> literal[0] == value[0] && literal[1..] <= value[1..];
      }
    }
  }

  lemma GlobStar(rest: string, value: string)
    ensures Glob([STAR] + rest, value) <==> exists i :: 0 <= i <= |value| && Glob(rest, value[i..])
    ensures Glob([STAR], value)
  {
    assert ([STAR] + rest)[1..] == rest;
    assert Glob([STAR][1..], value[|value|..]);
  }

  lemma GlobPrefix(literal: string, value: string)
    requires STAR !in literal
    ensures Glob(literal + [STAR], value) <==> HasPrefix(value, literal)
  {
    GlobLiteral(literal, [STAR], value);
    if literal <= value { GlobStar([], value[|literal|..]); }
  }

  lemma GlobSuffix(literal: string, value: string)
    requires STAR !in literal
    ensures Glob([STAR] + literal, value) <==> HasSuffix(value, literal)
  {
    GlobStar(literal, value);
    forall i | 0 <= i <= |value| ensures Glob(literal, value[i..]) <==> value[i..] == literal {
      GlobLiteral(literal, [], value[i..]);
      assert literal + [] == literal;
    }
    if HasSuffix(value, literal) { assert value[|value| - |literal|..] == literal; }
  }

  /** One star makes two parts, and so does only one star. */
  lemma SingleStarOrMore(pattern: string)
    requires STAR in pattern && pattern != [STAR]
    ensures Simple(pattern) <==>
      var parts := Split(pattern, STAR); |parts| == 2 && (parts[0] == "" || parts[1] == "")
  {
  }

  lemma GlobStarFrom(rest: string, value: string, from: nat)
    requires from <= |value|
    ensures Glob([STAR] + rest, value[from..]) <==> exists i :: from <= i <= |value| && Glob(rest, value[i..])
  {
    GlobStar(rest, value[from..]);
    forall k | 0 <= k <= |value| - from ensures value[from..][k..] == value[from + k..] {}
    if i :| from <= i <= |value| && Glob(rest, value[i..]) {
      assert Glob(rest, value[from..][i - from..]);
    }
  }

  lemma GlobLiteralAt(literal: string, rest: string, value: string, i: nat)
    requires STAR !in literal && i <= |value|
    ensures Glob(literal + rest, value[i..]) <==> OccursAt(value, i, literal) && Glob(rest, value[i + |literal|..])
  {
    GlobLiteral(literal, rest, value[i..]);
    assert literal <= value[i..] <==> OccursAt(value, i, literal);
    if OccursAt(value, i, literal) {
      assert value[i..][|literal|..] == value[i + |literal|..];
    }
  }

  /** A pattern wrapped in stars asks just for its literals in order. */
  lemma {:induction false} PlaceableIsWrappedGlob(literals: seq<string>, value: string, from: nat)
    requires literals != [] && FreeOf(literals, STAR) && from <= |value|
    ensures Placeable(literals, value, from) <==> Glob([STAR] + (Join(literals, STAR) + [STAR]), value[from..])
    decreases |literals|
  {
    var first, rest := literals[0], literals[1..];
    var tail := if rest == [] then [STAR] else [STAR] + (Join(rest, STAR) + [STAR]);
    assert Join(literals, STAR) + [STAR] == first + tail;
    GlobStarFrom(first + tail, value, from);
    forall i | from <= i <= |value|
      ensures Glob(first + tail, value[i..]) <==> OccursAt(value, i, first) && Placeable(rest, value, i + |first|)
    {
      GlobLiteralAt(first, tail, value, i);
      if OccursAt(value, i, first) {
        if rest == [] {
          GlobStar([], value[i + |first|..]);
        } else {
          PlaceableIsWrappedGlob(rest, value, i + |first|);
        }
      }
    }
  }

  // ---------- What the matcher accepts, exactly ----------

  /** Outside the simple patterns the matcher accepts what the star-wrapped pattern globs. */
  lemma GeneralBranchIsWrapped(pattern: string, value: string)
    requires !Simple(pattern)
    ensures Accepts(pattern, value) <==> Glob([STAR] + (pattern + [STAR]), value)
  {
    JoinOfSplit(pattern, STAR);
    SplitPieces(pattern, STAR);
    PlaceableIsWrappedGlob(Split(pattern, STAR), value, 0);
    assert value[0..] == value;
  }

  lemma {:induction false} AppendStar(pattern: string, value: string)
    requires Glob(pattern, value)
    ensures Glob(pattern + [STAR], value)
    decreases |pattern|
  {
    if pattern == [] {
      assert pattern + [STAR] == [STAR];
      GlobStar([], value);
    } else {
      assert (pattern + [STAR])[1..] == pattern[1..] + [STAR];
      if pattern[0] == STAR {
        var i :| 0 <= i <= |value| && Glob(pattern[1..], value[i..]);
        AppendStar(pattern[1..], value[i..]);
      } else {
        AppendStar(pattern[1..], value[1..]);
      }
    }
  }

  /** Every value the glob reading accepts is accepted by the matcher. */
  lemma GlobIsAccepted(pattern: string, value: string)
    requires Glob(pattern, value)
    ensures Accepts(pattern, value)
  {
    if !Simple(pattern) {
      GeneralBranchIsWrapped(pattern, value);
      AppendStar(pattern, value);
      GlobStar(pattern + [STAR], value);
      assert value[0..] == value;
    }
  }

  /** Two stars in a row stand for one. */
  lemma {:induction false} DoubleStar(head: string, value: string)
    requires Glob(head + [STAR, STAR], value)
    ensures Glob(head + [STAR], value)
    decreases |head|
  {
    if head == [] {
      assert head + [STAR] == [STAR];
      GlobStar([], value);
    } else {
      assert (head + [STAR, STAR])[1..] == head[1..] + [STAR, STAR];
      assert (head + [STAR])[1..] == head[1..] + [STAR];
      if head[0] == STAR {
        var i :| 0 <= i <= |value| && Glob(head[1..] + [STAR, STAR], value[i..]);
        DoubleStar(head[1..], value[i..]);
      } else {
        DoubleStar(head[1..], value[1..]);
      }
    }
  }

  /** The pattern begins and ends with a star. */
  predicate Wrapped(pattern: string) {
    pattern != [] && pattern[0] == STAR && pattern[|pattern| - 1] == STAR
  }

  lemma WrappedIsAnchored(pattern: string, value: string)
    requires Wrapped(pattern) && Glob([STAR] + (pattern + [STAR]), value)
    ensures Glob(pattern, value)
  {
    var more := pattern + [STAR];
    GlobStar(more, value);
    var i :| 0 <= i <= |value| && Glob(more, value[i..]);
    assert more == [STAR] + more[1..];
    GlobStar(more[1..], value[i..]);
    var j :| 0 <= j <= |value[i..]| && Glob(more[1..], value[i..][j..]);
    assert value[i..][j..] == value[i + j..];
    GlobStar(more[1..], value);
    var head := pattern[..|pattern| - 1];
    assert more == head + [STAR, STAR] && pattern == head + [STAR];
    DoubleStar(head, value);
  }

  /** The literals one after the other. */
  function Flat(literals: seq<string>): string {
    if literals == [] then [] else literals[0] + Flat(literals[1..])
  }

  lemma {:induction false} FlatIsPlaceable(literals: seq<string>, before: string, after: string)
    ensures Placeable(literals, before + Flat(literals) + after, |before|)
    decreases |literals|
  {
    if literals != [] {
      var first, rest := literals[0], literals[1..];
      FlatIsPlaceable(rest, before + first, after);
      FlatHead(before, first, Flat(rest), after);
      PlaceFirst(literals, before + Flat(literals) + after, |before|);
    }
  }

  lemma FlatHead(before: string, first: string, flat: string, after: string)
    ensures before + (first + flat) + after == (before + first) + flat + after
    ensures OccursAt(before + (first + flat) + after, |before|, first)
  {
    assert before + (first + flat) + after == (before + first) + flat + after;
  }

  lemma PlaceFirst(literals: seq<string>, value: string, at: nat)
    requires literals != [] && OccursAt(value, at, literals[0]) && Placeable(literals[1..], value, at + |literals[0]|)
    ensures Placeable(literals, value, at)
  {
  }

  lemma {:induction false} GlobLastLiteral(pattern: string, value: string)
    requires pattern != [] && pattern[|pattern| - 1] != STAR && Glob(pattern, value)
    ensures value != [] && value[|value| - 1] == pattern[|pattern| - 1]
    decreases |pattern|
  {
    if pattern[0] == STAR {
      var i :| 0 <= i <= |value| && Glob(pattern[1..], value[i..]);
      GlobLastLiteral(pattern[1..], value[i..]);
    } else if |pattern| > 1 {
      GlobLastLiteral(pattern[1..], value[1..]);
    }
  }

  /** A pattern with a loose end accepts some value the glob reading rejects. */
  lemma LooseEnd(pattern: string) returns (value: string)
    requires !Simple(pattern) && !Wrapped(pattern)
    ensures Accepts(pattern, value) && !Glob(pattern, value)
  {
    var parts := Split(pattern, STAR);
    if pattern[0] != STAR {
      var c := if pattern[0] == 'a' then 'b' else 'a';
      value := [c] + Flat(parts) + [];
      FlatIsPlaceable(parts, [c], []);
      PlaceableEarlier(parts, value, 0, 1);
    } else {
      var last := pattern[|pattern| - 1];
      var c := if last == 'a' then 'b' else 'a';
      value := [] + Flat(parts) + [c];
      FlatIsPlaceable(parts, [], [c]);
      if Glob(pattern, value) { GlobLastLiteral(pattern, value); }
    }
  }

  /** The matcher reads a pattern as a glob exactly for the simple patterns and those wrapped in stars. */
  lemma AnchoredIff(pattern: string)
    ensures (forall value :: Accepts(pattern, value) <==> Glob(pattern, value)) <==> Simple(pattern) || Wrapped(pattern)
  {
    if Simple(pattern) || Wrapped(pattern) {
      forall value ensures Accepts(pattern, value) <==> Glob(pattern, value) {
        if !Simple(pattern) && Accepts(pattern, value) {
          GeneralBranchIsWrapped(pattern, value);
          WrappedIsAnchored(pattern, value);
        } else if Glob(pattern, value) {
          GlobIsAccepted(pattern, value);
        }
      }
    } else {
      var _ := LooseEnd(pattern);
    }
  }
  // ---------- The branches by form ----------

  /** The patterns read as anchored: no star, the star alone, or one star at one end. */
  lemma SimpleIff(pattern: string)
    ensures Simple(pattern) <==>
      || STAR !in pattern || pattern == [STAR]
      || (pattern[0] == STAR && STAR !in pattern[1..])
      || (pattern[|pattern| - 1] == STAR && STAR !in pattern[..|pattern| - 1])
  {
    var parts := Split(pattern, STAR);
    JoinOfSplit(pattern, STAR);
    SplitPieces(pattern, STAR);
    SplitCount(pattern, STAR);
    if |parts| == 2 {
      assert pattern == parts[0] + [STAR] + parts[1];
    }
    if STAR in pattern {
      if pattern[0] == STAR && STAR !in pattern[1..] {
        OneStar([], pattern[1..], pattern);
      } else if pattern[|pattern| - 1] == STAR && STAR !in pattern[..|pattern| - 1] {
        OneStar(pattern[..|pattern| - 1], [], pattern);
      }
    }
  }

  lemma OneStar(before: string, after: string, pattern: string)
    requires STAR !in before && STAR !in after && pattern == before + [STAR] + after
    ensures Split(pattern, STAR) == [before, after]
  {
    SplitHead(before, after, STAR);
    SplitHead(after, [], STAR);
  }

  /** A star between two literals takes them from anywhere in the value. */
  lemma MiddleStarFloats(a: string, b: string, x: string, y: string, z: string)
    requires a != [] && b != [] && STAR !in a && STAR !in b
    ensures Accepts(a + [STAR] + b, x + a + y + b + z)
  {
    var pattern, value := a + [STAR] + b, x + a + y + b + z;
    OneStar(a, b, pattern);
    assert pattern[|a|] == STAR && |pattern| > 1;
    assert OccursAt(value, |x|, a) && OccursAt(value, |x| + |a| + |y|, b);
    assert [a, b][1..] == [b] && [b][1..] == [];
    assert Placeable([b], value, |x| + |a|);
  }
}
