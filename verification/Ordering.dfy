/** Go's string order, `sort.Strings` and the sorted listing of a string set. */
module Ordering {
  /** Lexicographic order by character, the order Go compares strings with. */
  predicate Leq(a: string, b: string) {
    a == [] || (b != [] && (a[0] < b[0] || (a[0] == b[0] && Leq(a[1..], b[1..]))))
  }

  lemma {:induction false} LeqTotal(a: string, b: string)
    ensures Leq(a, b) || Leq(b, a)
  {
    if a != [] && b != [] {
      LeqTotal(a[1..], b[1..]);
    }
  }

  lemma {:induction false} LeqAntisymmetric(a: string, b: string)
    requires Leq(a, b) && Leq(b, a)
    ensures a == b
  {
    if a != [] && b != [] {
      LeqAntisymmetric(a[1..], b[1..]);
      assert a == [a[0]] + a[1..] && b == [b[0]] + b[1..];
    }
  }

  lemma {:induction false} LeqTransitive(a: string, b: string, c: string)
    requires Leq(a, b) && Leq(b, c)
    ensures Leq(a, c)
  {
    if a != [] && a[0] == b[0] && b[0] == c[0] {
      LeqTransitive(a[1..], b[1..], c[1..]);
    }
  }

  /** The texts differ first at this place, where the one has the smaller character. */
  predicate SmallerAt(a: string, b: string, i: nat) {
    i < |a| && i < |b| && a[..i] == b[..i] && a[i] < b[i]
  }

  /** A text comes before another when it begins it, or is smaller where they first differ. */
  lemma {:induction false} LeqIff(a: string, b: string)
    ensures Leq(a, b) <==> a <= b || exists i :: 0 <= i < |a| && SmallerAt(a, b, i)
  {
    if a != [] && b != [] {
      var a', b' := a[1..], b[1..];
      LeqIff(a', b');
      assert a == [a[0]] + a' && b == [b[0]] + b';
      if a[0] == b[0] {
        forall i | 0 <= i < |a'| ensures SmallerAt(a', b', i) <==> SmallerAt(a, b, i + 1) {
          if i < |b'| {
            assert a[..i + 1] == [a[0]] + a'[..i] && b[..i + 1] == [b[0]] + b'[..i];
            assert a[..i + 1][1..] == a'[..i] && b[..i + 1][1..] == b'[..i];
          }
        }
        if i :| 0 <= i < |a| && SmallerAt(a, b, i) {
          assert SmallerAt(a', b', i - 1);
        }
      } else if a[0] < b[0] {
        assert SmallerAt(a, b, 0);
      } else {
        forall i | 0 <= i < |a| ensures !SmallerAt(a, b, i) {
          if 0 < i < |b| { assert a[..i][0] == a[0] && b[..i][0] == b[0]; }
        }
      }
    }
  }

  predicate Sorted(s: seq<string>) {
    forall i, j :: 0 <= i < j < |s| ==> Leq(s[i], s[j])
  }

  predicate Distinct<T(==)>(s: seq<T>) {
    forall i, j :: 0 <= i < j < |s| ==> s[i] != s[j]
  }

  function Elements<T(==)>(s: seq<T>): set<T> { set x | x in s }

  // ---------- sort.Strings ----------

  function InsertSorted(x: string, s: seq<string>): (r: seq<string>)
    ensures multiset(r) == multiset(s) + multiset{x}
  {
    if s == [] then [x]
    else if Leq(x, s[0]) then [x] + s
    else
      assert s == [s[0]] + s[1..];
      [s[0]] + InsertSorted(x, s[1..])
  }

  /** `sort.Strings`, as a function of the unsorted list. */
  function SortStrings(s: seq<string>): (r: seq<string>)
    ensures multiset(r) == multiset(s)
  {
    if s == [] then []
    else
      assert s == [s[0]] + s[1..];
      InsertSorted(s[0], SortStrings(s[1..]))
  }

  lemma {:induction false} InsertKeepsSorted(x: string, s: seq<string>)
    requires Sorted(s)
    ensures Sorted(InsertSorted(x, s))
  {
    if s != [] {
      if Leq(x, s[0]) {
        forall i | 0 <= i < |s| ensures Leq(x, s[i]) {
          if i > 0 { LeqTransitive(x, s[0], s[i]); }
        }
      } else {
        LeqTotal(x, s[0]);
        InsertKeepsSorted(x, s[1..]);
        var tail := InsertSorted(x, s[1..]);
        forall i | 0 <= i < |tail| ensures Leq(s[0], tail[i]) {
          assert tail[i] in multiset(tail);
          if tail[i] != x {
            assert tail[i] in multiset(s[1..]);
            assert tail[i] in s[1..];
          }
        }
      }
    }
  }

  lemma {:induction false} SortStringsSorts(s: seq<string>)
    ensures Sorted(SortStrings(s))
  {
    if s != [] {
      SortStringsSorts(s[1..]);
      InsertKeepsSorted(s[0], SortStrings(s[1..]));
    }
  }

  lemma HeadIsLeast(a: seq<string>, x: string)
    requires a != [] && Sorted(a) && x in multiset(a)
    ensures Leq(a[0], x)
  {
    LeqReflexive(a[0]);
    assert x in a;
  }

  lemma TailMultiset(head: string, tail: seq<string>)
    ensures multiset(tail) == multiset([head] + tail) - multiset{head}
  {
  }

  /** Two sorted listings of one multiset begin alike. */
  lemma HeadsAgree(a: seq<string>, b: seq<string>)
    requires a != [] && b != [] && Sorted(a) && Sorted(b) && multiset(a) == multiset(b)
    ensures a[0] == b[0]
  {
    assert a[0] in multiset(a) && b[0] in multiset(b);
    HeadIsLeast(a, b[0]);
    HeadIsLeast(b, a[0]);
    LeqAntisymmetric(a[0], b[0]);
  }

  /** A multiset has one sorted listing. */
  lemma {:induction false} SortedUnique(a: seq<string>, b: seq<string>)
    requires Sorted(a) && Sorted(b) && multiset(a) == multiset(b)
    ensures a == b
    decreases |a|
  {
    assert |a| == |multiset(a)| == |multiset(b)| == |b|;
    if a != [] {
      HeadsAgree(a, b);
      assert a == [a[0]] + a[1..] && b == [b[0]] + b[1..];
      TailMultiset(a[0], a[1..]);
      TailMultiset(b[0], b[1..]);
      SortedUnique(a[1..], b[1..]);
    }
  }

  lemma {:induction false} LeqReflexive(a: string)
    ensures Leq(a, a)
  {
    LeqTotal(a, a);
  }

  // ---------- sets.List ----------

  /** The list is sorted, free of duplicates and holds exactly the set's elements. */
  ghost predicate Lists(r: seq<string>, s: set<string>) {
    Sorted(r) && Distinct(r) && forall x :: x in r <==> x in s
  }

  predicate IsLeast(m: string, s: set<string>) {
    m in s && forall x | x in s :: Leq(m, x)
  }

  lemma {:induction false} LeastExists(s: set<string>) returns (m: string)
    requires s != {}
    ensures IsLeast(m, s)
    decreases s
  {
    var x :| x in s;
    LeqReflexive(x);
    if s == {x} {
      m := x;
    } else {
      var rest := LeastExists(s - {x});
      LeqTotal(x, rest);
      if Leq(x, rest) {
        m := x;
        forall y | y in s ensures Leq(m, y) {
          if y != x { LeqTransitive(x, rest, y); }
        }
      } else {
        m := rest;
      }
    }
  }

  lemma LeastUnique(s: set<string>)
    requires s != {}
    ensures exists m :: IsLeast(m, s)
    ensures forall m, n :: IsLeast(m, s) && IsLeast(n, s) ==> m == n
  {
    var _ := LeastExists(s);
    forall m, n | IsLeast(m, s) && IsLeast(n, s) ensures m == n {
      LeqAntisymmetric(m, n);
    }
  }

  /** `sets.List`: the elements of a string set in order. */
  function SortedList(s: set<string>): (r: seq<string>)
    ensures forall x :: x in r <==> x in s
    decreases s
  {
    if s == {} then []
    else
      LeastUnique(s);
      var m :| m in s && IsLeast(m, s);
      [m] + SortedList(s - {m})
  }

  lemma {:induction false} SortedListSorts(s: set<string>)
    ensures Lists(SortedList(s), s)
    decreases s
  {
    if s != {} {
      LeastUnique(s);
      var m :| m in s && IsLeast(m, s);
      SortedListSorts(s - {m});
      var tail := SortedList(s - {m});
      assert SortedList(s) == [m] + tail;
      assert forall i :: 0 <= i < |tail| ==> tail[i] in tail;
    }
  }
}
