/**
 Sorting with a comparison function. Go's sort.Slice is not part of this model; insertion sort
 stands for it. Wherever the order of a result is stated, the comparison is strict and total on the
 elements sorted, so the result is the only sorted arrangement (SortedUnique) and any correct sort
 gives the same one.
 */
module Sorting {
  import opened Sequences

  ghost predicate StrictOrder<T(!new)>(less: (T, T) -> bool)
  {
    && (forall x, y :: less(x, y) ==> !less(y, x))
    && (forall x, y, z :: less(x, y) && less(y, z) ==> less(x, z))
  }

  ghost predicate TotalOn<T(!new)>(less: (T, T) -> bool, s: seq<T>)
  {
    forall x, y :: x in s && y in s && x != y ==> less(x, y) || less(y, x)
  }

  ghost predicate SortedBy<T(!new)>(less: (T, T) -> bool, s: seq<T>)
  {
    forall i, j :: 0 <= i < j < |s| ==> less(s[i], s[j])
  }

  function Insert<T>(less: (T, T) -> bool, x: T, s: seq<T>): seq<T>
  {
    if s == [] then [x]
    else if less(s[0], x) then [s[0]] + Insert(less, x, s[1..])
    else [x] + s
  }

  function Sort<T>(less: (T, T) -> bool, s: seq<T>): seq<T>
  {
    if s == [] then [] else Insert(less, s[0], Sort(less, s[1..]))
  }

  lemma {:induction false} InsertMembers<T>(less: (T, T) -> bool, x: T, s: seq<T>)
    ensures multiset(Insert(less, x, s)) == multiset{x} + multiset(s)
    ensures |Insert(less, x, s)| == |s| + 1
  {
    if s != [] {
      assert s == [s[0]] + s[1..];
      InsertMembers(less, x, s[1..]);
    }
  }

  lemma {:induction false} SortMembers<T>(less: (T, T) -> bool, s: seq<T>)
    ensures multiset(Sort(less, s)) == multiset(s)
    ensures |Sort(less, s)| == |s|
    ensures forall x :: x in Sort(less, s) <==> x in s
  {
    if s != [] {
      assert s == [s[0]] + s[1..];
      SortMembers(less, s[1..]);
      InsertMembers(less, s[0], Sort(less, s[1..]));
    }
    SameMembers(Sort(less, s), s);
  }

  lemma SameMembers<T>(a: seq<T>, b: seq<T>)
    requires multiset(a) == multiset(b)
    ensures forall x :: x in a <==> x in b
  {
    forall x ensures x in a <==> x in b {
      assert x in a <==> x in multiset(a);
      assert x in b <==> x in multiset(b);
    }
  }

  /** The comparison is a strict order on the elements of s, whatever it does elsewhere. */
  ghost predicate StrictOrderOn<T(!new)>(less: (T, T) -> bool, s: seq<T>)
  {
    && (forall x, y :: x in s && y in s && less(x, y) ==> !less(y, x))
    && (forall x, y, z :: x in s && y in s && z in s && less(x, y) && less(y, z) ==> less(x, z))
  }

  lemma {:induction false} InsertSortedOn<T(!new)>(less: (T, T) -> bool, x: T, s: seq<T>, whole: seq<T>)
    requires StrictOrderOn(less, whole) && TotalOn(less, whole) && SortedBy(less, s)
    requires x in whole && x !in s && forall y :: y in s ==> y in whole
    ensures SortedBy(less, Insert(less, x, s))
  {
    if s != [] && less(s[0], x) {
      InsertSortedOn(less, x, s[1..], whole);
      InsertMembers(less, x, s[1..]);
      var r := Insert(less, x, s[1..]);
      forall i | 0 <= i < |r| ensures less(s[0], r[i]) {
        assert r[i] in multiset(r);
        assert r[i] == x || r[i] in s[1..];
      }
    } else if s != [] {
      forall i | 0 <= i < |s| ensures less(x, s[i]) {
        assert s[i] in s && s[0] in s;
        assert less(x, s[0]);
      }
    }
  }

  lemma {:induction false} SortSortedOn<T(!new)>(less: (T, T) -> bool, s: seq<T>, whole: seq<T>)
    requires StrictOrderOn(less, whole) && TotalOn(less, whole) && Distinct(s) && forall y :: y in s ==> y in whole
    ensures SortedBy(less, Sort(less, s))
  {
    if s != [] {
      var rest := s[1..];
      SortMembers(less, rest);
      SortSortedOn(less, rest, whole);
      assert s[0] !in rest;
      InsertSortedOn(less, s[0], Sort(less, rest), whole);
    }
  }

  lemma SortSorted<T(!new)>(less: (T, T) -> bool, s: seq<T>)
    requires StrictOrder(less) && TotalOn(less, s) && Distinct(s)
    ensures SortedBy(less, Sort(less, s))
    ensures forall x :: x in Sort(less, s) <==> x in s
    ensures |Sort(less, s)| == |s|
  {
    SortMembers(less, s);
    SortSortedOn(less, s, s);
  }

  /** A sorted arrangement exists only if the comparison is transitive on its elements. */
  lemma SortedMeansOrder<T(!new)>(less: (T, T) -> bool, s: seq<T>)
    requires SortedBy(less, s) && forall x, y :: less(x, y) ==> !less(y, x)
    ensures StrictOrderOn(less, s)
  {
    forall x, y, z | x in s && y in s && z in s && less(x, y) && less(y, z) ensures less(x, z) {
      var i, j, k :| 0 <= i < |s| && 0 <= j < |s| && 0 <= k < |s| && s[i] == x && s[j] == y && s[k] == z;
      assert i < j < k;
    }
  }

  /** Only one sorted sequence has a given set of elements. */
  lemma {:induction false} SortedUnique<T(!new)>(less: (T, T) -> bool, a: seq<T>, b: seq<T>)
    requires (forall x, y :: less(x, y) ==> !less(y, x)) && SortedBy(less, a) && SortedBy(less, b)
    requires forall x :: x in a <==> x in b
    ensures a == b
  {
    FirstIsMember(a);
    FirstIsMember(b);
    if a != [] {
      FirstIsLeast(less, a, b[0]);
      FirstIsLeast(less, b, a[0]);
      assert a[0] == b[0];
      TailMembers(less, a);
      TailMembers(less, b);
      SortedUnique(less, a[1..], b[1..]);
      assert a == [a[0]] + a[1..] && b == [b[0]] + b[1..];
    }
  }

  lemma FirstIsLeast<T(!new)>(less: (T, T) -> bool, s: seq<T>, x: T)
    requires SortedBy(less, s) && x in s
    ensures x == s[0] || less(s[0], x)
  {
  }

  lemma TailMembers<T(!new)>(less: (T, T) -> bool, s: seq<T>)
    requires (forall x, y :: less(x, y) ==> !less(y, x)) && SortedBy(less, s) && s != []
    ensures forall x :: x in s[1..] <==> x in s && x != s[0]
  {
    forall x | x in s[1..] ensures x != s[0] {
      assert less(s[0], x);
    }
  }

  // ---------- lists with repetitions ----------

  ghost predicate IsTotal<T(!new)>(less: (T, T) -> bool)
  {
    forall x, y :: x != y ==> less(x, y) || less(y, x)
  }

  /** Nothing comes after something larger. */
  ghost predicate Arranged<T(!new)>(less: (T, T) -> bool, s: seq<T>)
  {
    forall i, j :: 0 <= i < j < |s| ==> !less(s[j], s[i])
  }

  lemma {:induction false} InsertArranged<T(!new)>(less: (T, T) -> bool, x: T, s: seq<T>)
    requires StrictOrder(less) && IsTotal(less) && Arranged(less, s)
    ensures Arranged(less, Insert(less, x, s))
  {
    if s != [] && less(s[0], x) {
      var r := Insert(less, x, s[1..]);
      InsertArranged(less, x, s[1..]);
      InsertMembers(less, x, s[1..]);
      forall i | 0 <= i < |r| ensures !less(r[i], s[0]) {
        assert r[i] in multiset(r);
        assert r[i] == x || r[i] in s[1..];
      }
    } else if s != [] {
      forall i | 0 <= i < |s| ensures !less(s[i], x) {
        assert x == s[0] || less(x, s[0]);
      }
    }
  }

  lemma {:induction false} SortArranged<T(!new)>(less: (T, T) -> bool, s: seq<T>)
    requires StrictOrder(less) && IsTotal(less)
    ensures Arranged(less, Sort(less, s))
  {
    if s != [] {
      SortArranged(less, s[1..]);
      InsertArranged(less, s[0], Sort(less, s[1..]));
    }
  }

  lemma TailMultiset<T>(s: seq<T>)
    requires s != []
    ensures multiset(s[1..]) == multiset(s) - multiset{s[0]}
  {
    assert s == [s[0]] + s[1..];
  }

  lemma {:induction false} ArrangedUnique<T(!new)>(less: (T, T) -> bool, a: seq<T>, b: seq<T>)
    requires IsTotal(less) && Arranged(less, a) && Arranged(less, b) && multiset(a) == multiset(b)
    ensures a == b
  {
    SameMembers(a, b);
    FirstIsMember(a);
    FirstIsMember(b);
    if a != [] {
      FirstNotAfter(less, a, b[0]);
      FirstNotAfter(less, b, a[0]);
      TailMultiset(a);
      TailMultiset(b);
      ArrangedUnique(less, a[1..], b[1..]);
    }
  }

  lemma FirstNotAfter<T(!new)>(less: (T, T) -> bool, s: seq<T>, x: T)
    requires Arranged(less, s) && x in s
    ensures x == s[0] || !less(x, s[0])
  {
  }

  /** The sorted list depends only on what is sorted, not on its order. */
  lemma SortCanonical<T(!new)>(less: (T, T) -> bool, a: seq<T>, b: seq<T>)
    requires StrictOrder(less) && IsTotal(less) && multiset(a) == multiset(b)
    ensures Sort(less, a) == Sort(less, b)
  {
    SortArranged(less, a);
    SortArranged(less, b);
    SortMembers(less, a);
    SortMembers(less, b);
    ArrangedUnique(less, Sort(less, a), Sort(less, b));
  }

  // ---------- keys ----------

  function Keys<T>(key: T -> int, s: seq<T>): (keys: seq<int>)
    ensures |keys| == |s| && forall i :: 0 <= i < |s| ==> keys[i] == key(s[i])
  {
    seq(|s|, i requires 0 <= i < |s| => key(s[i]))
  }

  lemma {:induction false} InsertKeys<T>(less: (T, T) -> bool, key: T -> int, x: T, s: seq<T>)
    ensures multiset(Keys(key, Insert(less, x, s))) == multiset{key(x)} + multiset(Keys(key, s))
  {
    if s == [] || !less(s[0], x) {
      assert Keys(key, [x] + s) == [key(x)] + Keys(key, s);
    } else {
      var rest := Insert(less, x, s[1..]);
      InsertKeys(less, key, x, s[1..]);
      assert Keys(key, [s[0]] + rest) == [key(s[0])] + Keys(key, rest);
      assert Keys(key, s) == [key(s[0])] + Keys(key, s[1..]);
    }
  }

  /** Sorting, even by a comparison that is no order, keeps every key with its multiplicity. */
  lemma {:induction false} SortKeys<T>(less: (T, T) -> bool, key: T -> int, s: seq<T>)
    ensures multiset(Keys(key, Sort(less, s))) == multiset(Keys(key, s))
  {
    if s != [] {
      SortKeys(less, key, s[1..]);
      InsertKeys(less, key, s[0], Sort(less, s[1..]));
      assert Keys(key, s) == [key(s[0])] + Keys(key, s[1..]);
    }
  }

  // ---------- strings ----------

  /** Go's < on strings. */
  predicate StringLess(a: string, b: string)
  {
    if b == [] then false
    else if a == [] then true
    else a[0] < b[0] || (a[0] == b[0] && StringLess(a[1..], b[1..]))
  }

  lemma {:induction false} StringLessTransitive(a: string, b: string, c: string)
    requires StringLess(a, b) && StringLess(b, c)
    ensures StringLess(a, c)
  {
    if a != [] && a[0] == b[0] == c[0] { StringLessTransitive(a[1..], b[1..], c[1..]); }
  }

  lemma {:induction false} StringLessTotal(a: string, b: string)
    ensures a == b || StringLess(a, b) || StringLess(b, a)
    ensures !(StringLess(a, b) && StringLess(b, a)) && !StringLess(a, a)
  {
    if a != [] {
      if b != [] && a[0] == b[0] {
        StringLessTotal(a[1..], b[1..]);
        assert a[1..] == b[1..] ==> [a[0]] + a[1..] == [b[0]] + b[1..];
      }
      StringLessTotal(a[1..], a[1..]);
    }
  }

  lemma StringOrder()
    ensures StrictOrder(StringLess) && IsTotal(StringLess)
  {
    forall a, b ensures !(StringLess(a, b) && StringLess(b, a)) && (a != b ==> StringLess(a, b) || StringLess(b, a)) {
      StringLessTotal(a, b);
    }
    forall a, b, c | StringLess(a, b) && StringLess(b, c) ensures StringLess(a, c) {
      StringLessTransitive(a, b, c);
    }
  }

  // ---------- sort.Ints over distinct numbers ----------

  predicate IntLess(a: int, b: int)
  {
    a < b
  }

  /** The increasing list of a set: what collecting map keys and sorting them gives. */
  ghost predicate IsSortedListOf(s: seq<int>, ids: set<int>)
  {
    StrictlyIncreasing(s) && forall x :: x in s <==> x in ids
  }

  lemma ListSize(s: seq<int>, ids: set<int>)
    requires IsSortedListOf(s, ids)
    ensures |s| == |ids|
  {
    DistinctSize(s);
    SameInts(Elements(s), ids);
  }

  method SortedKeys(ids: set<int>) returns (s: seq<int>)
    ensures IsSortedListOf(s, ids)
  {
    var keys: seq<int> := [];
    var rest := ids;
    while rest != {}
      invariant rest <= ids && Distinct(keys)
      invariant forall x :: x in keys <==> x in ids && x !in rest
      decreases |rest|
    {
      var id := PickOne(rest);
      keys := keys + [id];
      rest := rest - {id};
    }
    s := SortInts(keys);
  }

  method SortInts(keys: seq<int>) returns (s: seq<int>)
    requires Distinct(keys)
    ensures StrictlyIncreasing(s) && forall x :: x in s <==> x in keys
  {
    assert StrictOrder(IntLess);
    SortSorted(IntLess, keys);
    s := Sort(IntLess, keys);
    forall i, j | 0 <= i < j < |s| ensures s[i] < s[j] {
      assert IntLess(s[i], s[j]);
    }
  }

  lemma SortedListUnique(a: seq<int>, b: seq<int>, ids: set<int>)
    requires IsSortedListOf(a, ids) && IsSortedListOf(b, ids)
    ensures a == b
  {
    IncreasingUnique(a, b);
  }
}
