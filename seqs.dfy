/**
 * Sequence helpers shared by the pages: JavaScript's `filter` (order kept),
 * the add-or-remove toggle of the filter panels, `slice(0, n)`, and the
 * in-place `sort` with an integer key.
 */
module Seqs {

  /** `a` is `b` with some elements left out, the rest in their original order. */
  ghost predicate SubseqOf<T>(a: seq<T>, b: seq<T>)
    decreases |b|
  {
    a == [] || (b != [] && ((a[0] == b[0] && SubseqOf(a[1..], b[1..])) || SubseqOf(a, b[1..])))
  }

  lemma {:induction false} SubseqOfSelf<T>(s: seq<T>)
    ensures SubseqOf(s, s)
    decreases |s|
  {
    if s != [] { SubseqOfSelf(s[1..]); }
  }

  lemma {:induction false} SubseqLength<T>(a: seq<T>, b: seq<T>)
    requires SubseqOf(a, b)
    ensures |a| <= |b|
    decreases |b|
  {
    if a != [] {
      if a[0] == b[0] && SubseqOf(a[1..], b[1..]) {
        SubseqLength(a[1..], b[1..]);
      } else {
        SubseqLength(a, b[1..]);
      }
    }
  }

  lemma {:induction false} SubseqTransitive<T>(a: seq<T>, b: seq<T>, c: seq<T>)
    requires SubseqOf(a, b) && SubseqOf(b, c)
    ensures SubseqOf(a, c)
    decreases |c|
  {
    if a != [] {
      assert b != [] && c != [];
      if b[0] == c[0] && SubseqOf(b[1..], c[1..]) {
        if a[0] == b[0] && SubseqOf(a[1..], b[1..]) {
          SubseqTransitive(a[1..], b[1..], c[1..]);
        } else {
          SubseqTransitive(a, b[1..], c[1..]);
        }
      } else {
        SubseqTransitive(a, b, c[1..]);
      }
    }
  }

  /** JavaScript `Array.prototype.filter`. */
  function Filter<T>(s: seq<T>, p: T -> bool): (r: seq<T>)
    ensures |r| <= |s|
    ensures forall x :: x in r ==> x in s && p(x)
    ensures forall x :: x in s && p(x) ==> x in r
    ensures SubseqOf(r, s)
    ensures (forall x :: x in s ==> p(x)) ==> r == s
  {
    if s == [] then []
    else
      var rest := Filter(s[1..], p);
      assert s == [s[0]] + s[1..];
      if p(s[0]) then
        assert ([s[0]] + rest)[1..] == rest;
        [s[0]] + rest
      else rest
  }

  lemma {:induction false} FilterAppend<T>(a: seq<T>, b: seq<T>, p: T -> bool)
    ensures Filter(a + b, p) == Filter(a, p) + Filter(b, p)
    decreases |a|
  {
    if a == [] {
      assert a + b == b;
    } else {
      assert (a + b)[1..] == a[1..] + b;
      FilterAppend(a[1..], b, p);
      assert (a + b)[0] == a[0];
    }
  }

  /** Filtering keeps every kept element as often as it occurred. */
  lemma {:induction false} FilterMultiset<T>(s: seq<T>, p: T -> bool, x: T)
    ensures multiset(Filter(s, p))[x] == if p(x) then multiset(s)[x] else 0
    decreases |s|
  {
    if s != [] {
      FilterMultiset(s[1..], p, x);
      assert s == [s[0]] + s[1..];
    }
  }

  /** `FilterMultiset` for every element at once. */
  lemma FilterMultisetAll<T>(s: seq<T>, p: T -> bool)
    ensures forall x :: multiset(Filter(s, p))[x] == if p(x) then multiset(s)[x] else 0
  {
    forall x ensures multiset(Filter(s, p))[x] == if p(x) then multiset(s)[x] else 0 {
      FilterMultiset(s, p, x);
    }
  }

  /** Two filters in a row keep what passes both, as often as it occurred. */
  lemma FilterFilterMultiset<T>(s: seq<T>, p: T -> bool, q: T -> bool)
    ensures forall x :: multiset(Filter(Filter(s, p), q))[x] == if p(x) && q(x) then multiset(s)[x] else 0
  {
    forall x ensures multiset(Filter(Filter(s, p), q))[x] == if p(x) && q(x) then multiset(s)[x] else 0 {
      FilterMultiset(s, p, x);
      FilterMultiset(Filter(s, p), q, x);
    }
  }

  /** Permuting the input permutes the filtered output. */
  lemma {:induction false} FilterPermutation<T>(s: seq<T>, t: seq<T>, p: T -> bool)
    requires multiset(s) == multiset(t)
    ensures multiset(Filter(s, p)) == multiset(Filter(t, p))
  {
    forall x ensures multiset(Filter(s, p))[x] == multiset(Filter(t, p))[x] {
      FilterMultiset(s, p, x);
      FilterMultiset(t, p, x);
      assert multiset(s)[x] == multiset(t)[x];
    }
    MultisetExtensionality(multiset(Filter(s, p)), multiset(Filter(t, p)));
  }

  lemma MultisetExtensionality<T>(x: multiset<T>, y: multiset<T>)
    requires forall z :: x[z] == y[z]
    ensures x == y
  {
  }

  lemma ConcatAssoc<T>(a: seq<T>, b: seq<T>, c: seq<T>)
    ensures a + (b + c) == (a + b) + c
  {
  }

  /** JavaScript `slice(0, n)`: the first `n` elements, or all of them if there are fewer. */
  function Take<T>(s: seq<T>, n: nat): (r: seq<T>)
    ensures |r| == if |s| < n then |s| else n
    ensures r <= s
  {
    if |s| < n then s else s[..n]
  }

  ghost predicate NoDuplicates<T>(s: seq<T>) {
    forall i, j :: 0 <= i < j < |s| ==> s[i] != s[j]
  }

  /**
   * The selection toggle of the filter panels: remove `x` when it is
   * selected, otherwise append it.
   */
  function Toggle<T(==,!new)>(selected: seq<T>, x: T): (r: seq<T>)
    ensures x in r <==> x !in selected
    ensures forall y :: y in r && y != x ==> y in selected
    ensures forall y :: y in selected && y != x ==> y in r
    ensures x !in selected ==> r == selected + [x]
    ensures x in selected ==> SubseqOf(r, selected)
    ensures x in selected ==> forall y :: multiset(r)[y] == if y == x then 0 else multiset(selected)[y]
  {
    if x in selected then
      var keep := (y: T) => y != x;
      FilterMultisetAll(selected, keep);
      Filter(selected, keep)
    else selected + [x]
  }

  /** Toggling the same id twice gives back the same set of selected ids. */
  lemma ToggleTwiceMembership<T(!new)>(selected: seq<T>, x: T)
    ensures forall y :: y in Toggle(Toggle(selected, x), x) ==> y in selected
    ensures forall y :: y in selected ==> y in Toggle(Toggle(selected, x), x)
  {
  }

  /** Starting from an unselected id, toggling twice restores the exact selection list. */
  lemma ToggleTwiceRestores<T(!new)>(selected: seq<T>, x: T)
    requires x !in selected
    ensures Toggle(Toggle(selected, x), x) == selected
  {
    FilterAppend(selected, [x], y => y != x);
    assert Filter([x], y => y != x) == [];
  }

  /** A selection without repeated ids keeps that property under toggling. */
  lemma {:induction false} ToggleKeepsNoDuplicates<T(!new)>(selected: seq<T>, x: T)
    requires NoDuplicates(selected)
    ensures NoDuplicates(Toggle(selected, x))
  {
    if x in selected {
      SubseqNoDuplicates(Toggle(selected, x), selected);
    }
  }

  lemma {:induction false} SubseqNoDuplicates<T>(a: seq<T>, b: seq<T>)
    requires SubseqOf(a, b) && NoDuplicates(b)
    ensures NoDuplicates(a)
    decreases |b|
  {
    if a != [] {
      if a[0] == b[0] && SubseqOf(a[1..], b[1..]) {
        SubseqNoDuplicates(a[1..], b[1..]);
        SubseqMembers(a[1..], b[1..]);
        forall j | 0 < j < |a| ensures a[0] != a[j] {
          assert a[j] == a[1..][j - 1];
          assert a[j] in a[1..];
          assert a[j] in b[1..];
          var k :| 0 <= k < |b[1..]| && b[1..][k] == a[j];
          assert b[k + 1] == a[j];
        }
      } else {
        SubseqNoDuplicates(a, b[1..]);
      }
    }
  }

  lemma {:induction false} SubseqMembers<T>(a: seq<T>, b: seq<T>)
    requires SubseqOf(a, b)
    ensures forall x :: x in a ==> x in b
    decreases |b|
  {
    if a != [] {
      if a[0] == b[0] && SubseqOf(a[1..], b[1..]) {
        SubseqMembers(a[1..], b[1..]);
        assert a == [a[0]] + a[1..];
      } else {
        SubseqMembers(a, b[1..]);
      }
    }
  }

  /** `s` is in ascending order of `key` (ties allowed). */
  ghost predicate SortedByKey<T>(s: seq<T>, key: T -> int) {
    forall i, j :: 0 <= i < j < |s| ==> key(s[i]) <= key(s[j])
  }

  /**
   * `Array.prototype.sort` with the comparator `key(a) - key(b)`: sorts the
   * array in place, ascending by `key`, as a permutation of its contents.
   */
  method SortByKey<T>(a: array<T>, key: T -> int)
    modifies a
    ensures SortedByKey(a[..], key)
    ensures multiset(a[..]) == multiset(old(a[..]))
  {
    var i := 0;
    while i < a.Length
      invariant 0 <= i <= a.Length
      invariant SortedByKey(a[..i], key)
      invariant multiset(a[..]) == multiset(old(a[..]))
    {
      InsertLast(a, i, key);
      i := i + 1;
    }
    assert a[..a.Length] == a[..];
  }

  /** One step of insertion sort: moves `a[i]` left into the sorted prefix `a[..i]`. */
  method InsertLast<T>(a: array<T>, i: nat, key: T -> int)
    requires i < a.Length
    requires SortedByKey(a[..i], key)
    modifies a
    ensures SortedByKey(a[..i + 1], key)
    ensures multiset(a[..]) == multiset(old(a[..]))
  {
    var j := i;
    while j > 0 && key(a[j - 1]) > key(a[j])
      invariant 0 <= j <= i
      invariant forall p, q :: 0 <= p < q <= i && p != j && q != j ==> key(a[p]) <= key(a[q])
      invariant forall q :: j < q <= i ==> key(a[j]) < key(a[q])
      invariant multiset(a[..]) == multiset(old(a[..]))
    {
      Swap(a, j - 1, j);
      j := j - 1;
    }
  }

  method Swap<T>(a: array<T>, i: nat, j: nat)
    requires i < j < a.Length
    modifies a
    ensures a[..] == old(a[..])[i := old(a[j])][j := old(a[i])]
    ensures multiset(a[..]) == multiset(old(a[..]))
  {
    a[i], a[j] := a[j], a[i];
  }

  lemma {:induction false} NoDuplicatesMultiset<T>(s: seq<T>, x: T)
    requires NoDuplicates(s)
    ensures multiset(s)[x] <= 1
    decreases |s|
  {
    if s != [] {
      assert s == [s[0]] + s[1..];
      assert NoDuplicates(s[1..]) by {
        forall i, j | 0 <= i < j < |s[1..]| ensures s[1..][i] != s[1..][j] {
          assert s[1..][i] == s[i + 1] && s[1..][j] == s[j + 1];
        }
      }
      NoDuplicatesMultiset(s[1..], x);
    }
  }

  lemma RepeatedMultiset<T>(s: seq<T>, i: nat, j: nat)
    requires i < j < |s| && s[i] == s[j]
    ensures multiset(s)[s[i]] >= 2
  {
    assert s == s[..j] + [s[j]] + s[j + 1..];
    assert s[i] in s[..j];
  }

  /** A permutation of a sequence without repeats has no repeats. */
  lemma PermutationNoDuplicates<T>(a: seq<T>, b: seq<T>)
    requires multiset(a) == multiset(b) && NoDuplicates(b)
    ensures NoDuplicates(a)
  {
    forall i, j | 0 <= i < j < |a| ensures a[i] != a[j] {
      if a[i] == a[j] {
        RepeatedMultiset(a, i, j);
        NoDuplicatesMultiset(b, a[i]);
      }
    }
  }

  /** In a sequence sorted by `key`, the first element kept by a filter has the least key among the kept ones. */
  lemma {:induction false} FilterSortedHead<T>(s: seq<T>, p: T -> bool, key: T -> int)
    requires SortedByKey(s, key) && Filter(s, p) != []
    ensures Filter(s, p)[0] in s && p(Filter(s, p)[0])
    ensures forall x :: x in s && p(x) ==> key(Filter(s, p)[0]) <= key(x)
    decreases |s|
  {
    assert s == [s[0]] + s[1..];
    if !p(s[0]) {
      FilterSortedHead(s[1..], p, key);
    } else {
      forall x | x in s ensures key(s[0]) <= key(x) {
        var k :| 0 <= k < |s| && s[k] == x;
      }
    }
  }

  /** In a sequence sorted by `key`, the last element kept by a filter has the greatest key among the kept ones. */
  lemma {:induction false} FilterSortedLast<T>(s: seq<T>, p: T -> bool, key: T -> int)
    requires SortedByKey(s, key) && Filter(s, p) != []
    ensures Last(Filter(s, p)) in s && p(Last(Filter(s, p)))
    ensures forall x :: x in s && p(x) ==> key(x) <= key(Last(Filter(s, p)))
    decreases |s|
  {
    var r, rest := Filter(s, p), Filter(s[1..], p);
    assert r == (if p(s[0]) then [s[0]] else []) + rest;
    assert s == [s[0]] + s[1..];
    if rest == [] {
      assert r == [s[0]];
    } else {
      assert SortedByKey(s[1..], key);
      FilterSortedLast(s[1..], p, key);
      var last := Last(rest);
      assert Last(r) == last;
      var k :| 0 <= k < |s[1..]| && s[1..][k] == last;
      assert key(s[0]) <= key(s[k + 1]);
    }
  }

  function Last<T>(s: seq<T>): T
    requires s != []
  {
    s[|s| - 1]
  }
}
