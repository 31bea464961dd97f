/** Sorting a slice of strings with a "less" function, as Go's `sort.Strings` and `sort.Slice` do.
    The library's algorithm is not part of the program; what matters is the order it promises,
    which insertion into a sorted prefix produces as well. */
module Sorting {
  import opened GoStrings

  /** The elements of a sequence, as a set. */
  function Elems(s: seq<string>): set<string> {
    set x | x in s
  }

  predicate NoDuplicates(s: seq<string>) {
    forall i, j :: 0 <= i < j < |s| ==> s[i] != s[j]
  }

  /** Appending an element not yet present keeps the elements distinct. */
  lemma AppendFresh(s: seq<string>, x: string)
    requires NoDuplicates(s) && x !in Elems(s)
    ensures NoDuplicates(s + [x]) && Elems(s + [x]) == Elems(s) + {x}
  {
    assert forall i :: 0 <= i < |s| ==> (s + [x])[i] == s[i] && s[i] in Elems(s);
  }

  /** No later element is less than an earlier one. */
  predicate SortedBy(s: seq<string>, less: (string, string) -> bool) {
    forall i, j :: 0 <= i < j < |s| ==> !less(s[j], s[i])
  }

  /** `less` is irreflexive and transitive on the given elements. */
  ghost predicate StrictOrderOn(less: (string, string) -> bool, xs: set<string>) {
    && (forall a :: a in xs ==> !less(a, a))
    && (forall a, b, c :: a in xs && b in xs && c in xs && less(a, b) && less(b, c) ==> less(a, c))
  }

  /** Each element is strictly before the next in byte-wise order. */
  predicate StrictlyAscending(s: seq<string>) {
    forall i, j :: 0 <= i < j < |s| ==> LexLess(s[i], s[j])
  }

  /** Inserts `x` in front of the first element it is less than. */
  function InsertBy(x: string, s: seq<string>, less: (string, string) -> bool): (r: seq<string>)
    ensures multiset(r) == multiset(s) + multiset{x}
  {
    if s == [] then [x]
    else if less(x, s[0]) then [x] + s
    else
      assert s == [s[0]] + s[1..];
      [s[0]] + InsertBy(x, s[1..], less)
  }

  /** The elements of `s` rearranged in `less` order (insertion sort). */
  function SortBy(s: seq<string>, less: (string, string) -> bool): (r: seq<string>)
    ensures multiset(r) == multiset(s)
  {
    if s == [] then []
    else
      assert s == [s[0]] + s[1..];
      InsertBy(s[0], SortBy(s[1..], less), less)
  }

  lemma ElemsOfMultiset(a: seq<string>, b: seq<string>)
    requires multiset(a) == multiset(b)
    ensures Elems(a) == Elems(b)
  {
    forall x | x in a ensures x in b {
      assert x in multiset(a);
    }
    forall x | x in b ensures x in a {
      assert x in multiset(b);
    }
  }

  lemma {:induction false} InsertBySorted(x: string, s: seq<string>, less: (string, string) -> bool)
    requires StrictOrderOn(less, Elems(s) + {x})
    requires SortedBy(s, less)
    ensures SortedBy(InsertBy(x, s, less), less)
    decreases |s|
  {
    if s != [] && !less(x, s[0]) {
      assert Elems(s[1..]) + {x} <= Elems(s) + {x};
      InsertBySorted(x, s[1..], less);
      var r := InsertBy(x, s[1..], less);
      ElemsOfMultiset(r, s[1..] + [x]);
      forall j | 0 <= j < |r| ensures !less(r[j], s[0]) {
        assert r[j] in Elems(s[1..] + [x]);
      }
    }
  }

  /** Under an irreflexive, transitive `less`, the result is sorted. */
  lemma {:induction false} SortBySorted(s: seq<string>, less: (string, string) -> bool)
    requires StrictOrderOn(less, Elems(s))
    ensures SortedBy(SortBy(s, less), less)
    decreases |s|
  {
    if s != [] {
      assert Elems(s[1..]) <= Elems(s);
      SortBySorted(s[1..], less);
      ElemsOfMultiset(SortBy(s[1..], less), s[1..]);
      assert Elems(s[1..]) + {s[0]} == Elems(s);
      InsertBySorted(s[0], SortBy(s[1..], less), less);
    }
  }

  lemma {:induction false} NoDuplicatesCount(s: seq<string>, x: string)
    requires NoDuplicates(s)
    ensures multiset(s)[x] <= 1
    decreases |s|
  {
    if s != [] {
      assert s == [s[0]] + s[1..];
      NoDuplicatesCount(s[1..], x);
      if x == s[0] {
        assert x !in s[1..];
      }
    }
  }

  lemma RepeatedCount(s: seq<string>, i: nat, j: nat)
    requires i < j < |s|
    ensures s[i] == s[j] ==> multiset(s)[s[i]] >= 2
  {
    assert s == s[..j] + s[j..];
    assert s[i] in s[..j];
    assert s[j] == s[j..][0];
  }

  /** A rearrangement of a sequence without duplicates has none either. */
  lemma NoDuplicatesOfPermutation(a: seq<string>, b: seq<string>)
    requires NoDuplicates(a) && multiset(a) == multiset(b)
    ensures NoDuplicates(b)
  {
    forall i, j | 0 <= i < j < |b| ensures b[i] != b[j] {
      NoDuplicatesCount(a, b[i]);
      RepeatedCount(b, i, j);
    }
  }

  /** Byte-wise order is a strict order on any set of strings. */
  lemma LexLessStrictOrder(xs: set<string>)
    ensures StrictOrderOn(LexLess, xs)
  {
    forall a | a in xs ensures !LexLess(a, a) {
      LexLessIrreflexive(a);
    }
    forall a, b, c | a in xs && b in xs && c in xs && LexLess(a, b) && LexLess(b, c)
      ensures LexLess(a, c)
    {
      LexLessTransitive(a, b, c);
    }
  }

  /** Distinct strings sorted byte-wise are strictly ascending. */
  lemma SortedDistinctAscending(s: seq<string>)
    requires SortedBy(s, LexLess) && NoDuplicates(s)
    ensures StrictlyAscending(s)
  {
    forall i, j | 0 <= i < j < |s| ensures LexLess(s[i], s[j]) {
      LexLessTotal(s[i], s[j]);
    }
  }

  lemma ElemsEmpty(s: seq<string>)
    ensures Elems(s) == {} ==> s == []
  {
    if s != [] {
      assert s[0] in Elems(s);
    }
  }

  /** Every non-empty set of strings has a byte-wise least element. */
  lemma {:induction false} LeastExists(xs: set<string>)
    requires xs != {}
    ensures exists x :: x in xs && forall y :: y in xs && y != x ==> LexLess(x, y)
    decreases |xs|
  {
    var a :| a in xs;
    var rest := xs - {a};
    if rest != {} {
      LeastExists(rest);
      var m :| m in rest && forall y :: y in rest && y != m ==> LexLess(m, y);
      LexLessTotal(a, m);
      if LexLess(a, m) {
        forall y | y in xs && y != a ensures LexLess(a, y) {
          if y != m {
            LexLessTransitive(a, m, y);
          }
        }
      } else {
        assert forall y :: y in xs && y != m ==> LexLess(m, y);
      }
    } else {
      assert forall y :: y in xs ==> y in rest || y == a;
    }
  }

  /** Putting the least element of a set in front of an ascending listing of the others gives an
      ascending listing of the set. */
  lemma PrependLeast(x: string, rest: seq<string>, xs: set<string>)
    requires x in xs && forall y :: y in xs && y != x ==> LexLess(x, y)
    requires Elems(rest) == xs - {x} && StrictlyAscending(rest)
    ensures Elems([x] + rest) == xs && StrictlyAscending([x] + rest)
  {
    var r := [x] + rest;
    assert forall j :: 0 < j < |r| ==> r[j] == rest[j - 1] && rest[j - 1] in Elems(rest);
    assert Elems(r) == {x} + Elems(rest) by {
      assert r[0] == x;
    }
  }

  /** The elements of a set in strictly ascending byte-wise order: the least one, then the rest. */
  ghost function AscendingKeys(xs: set<string>): (r: seq<string>)
    ensures Elems(r) == xs && StrictlyAscending(r)
    decreases |xs|
  {
    if xs == {} then []
    else
      LeastExists(xs);
      var x :| x in xs && forall y :: y in xs && y != x ==> LexLess(x, y);
      var rest := AscendingKeys(xs - {x});
      PrependLeast(x, rest, xs);
      [x] + rest
  }

  /** There is only one strictly ascending arrangement of a set of strings: two of them are
      equal. This is what makes the tag section of the report independent of map order. */
  lemma {:induction false} AscendingUnique(a: seq<string>, b: seq<string>)
    requires StrictlyAscending(a) && StrictlyAscending(b)
    requires Elems(a) == Elems(b)
    ensures a == b
    decreases |a|
  {
    if a == [] {
      ElemsEmpty(b);
    } else {
      assert a[0] in Elems(b);
      assert b != [];
      assert b[0] in Elems(a);
      if a[0] != b[0] {
        var k :| 0 <= k < |b| && b[k] == a[0];
        var m :| 0 <= m < |a| && a[m] == b[0];
        LexLessTransitive(a[0], b[0], a[0]);
        LexLessIrreflexive(a[0]);
        assert false;
      }
      forall i | 0 < i < |a| ensures a[i] != a[0] {
        LexLessIrreflexive(a[0]);
      }
      forall i | 0 < i < |b| ensures b[i] != b[0] {
        LexLessIrreflexive(b[0]);
      }
      assert Elems(a[1..]) == Elems(a) - {a[0]} by {
        assert a == [a[0]] + a[1..];
      }
      assert Elems(b[1..]) == Elems(b) - {b[0]} by {
        assert b == [b[0]] + b[1..];
      }
      AscendingUnique(a[1..], b[1..]);
      assert a == [a[0]] + a[1..] && b == [b[0]] + b[1..];
    }
  }

  /** Each element is strictly before every later one under `less`. */
  predicate AscendingBy(s: seq<string>, less: (string, string) -> bool) {
    forall i, j :: 0 <= i < j < |s| ==> less(s[i], s[j])
  }

  /** A strictly ascending listing holds each element once. */
  lemma AscendingNoDuplicates(s: seq<string>)
    requires StrictlyAscending(s)
    ensures NoDuplicates(s)
  {
    forall i, j | 0 <= i < j < |s| ensures s[i] != s[j] {
      LexLessIrreflexive(s[i]);
    }
  }

  /** Under a strict order there is only one ascending listing of a set: two of them are equal. */
  lemma {:induction false} AscendingByUnique(a: seq<string>, b: seq<string>, less: (string, string) -> bool)
    requires StrictOrderOn(less, Elems(a))
    requires AscendingBy(a, less) && AscendingBy(b, less)
    requires Elems(a) == Elems(b)
    ensures a == b
    decreases |a|
  {
    if a == [] {
      ElemsEmpty(b);
    } else {
      assert a[0] in Elems(b);
      assert b != [];
      assert b[0] in Elems(a);
      var x, y := a[0], b[0];
      assert y == x || less(x, y);
      assert x == y || less(y, x);
      assert x == y;
      assert Elems(a[1..]) == Elems(a) - {a[0]} by {
        assert a == [a[0]] + a[1..];
        assert forall i :: 0 < i < |a| ==> a[i] != a[0] by {
          assert forall i :: 0 < i < |a| ==> less(a[0], a[i]);
        }
      }
      assert Elems(b[1..]) == Elems(b) - {b[0]} by {
        assert b == [b[0]] + b[1..];
        assert forall i :: 0 < i < |b| ==> b[i] != b[0] by {
          assert forall i :: 0 < i < |b| ==> less(b[0], b[i]) && b[i] in Elems(a);
        }
      }
      assert StrictOrderOn(less, Elems(a[1..])) by {
        assert Elems(a[1..]) <= Elems(a);
      }
      AscendingByUnique(a[1..], b[1..], less);
      assert a == [a[0]] + a[1..] && b == [b[0]] + b[1..];
    }
  }
}
