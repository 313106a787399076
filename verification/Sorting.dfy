/** The stable sort of a JavaScript array under a comparison function. */
module Sorting {
  import opened Common

  /** A comparison function whose sign is a total preorder. */
  ghost predicate Comparison<T(!new)>(compare: (T, T) -> int) {
    && (forall a, b :: compare(a, b) < 0 <==> compare(b, a) > 0)
    && (forall a, b, c :: compare(a, b) <= 0 && compare(b, c) <= 0 ==> compare(a, c) <= 0)
  }

  ghost predicate SortedBy<T>(s: seq<T>, compare: (T, T) -> int) {
    forall i, j :: 0 <= i < j < |s| ==> compare(s[i], s[j]) <= 0
  }

  function Insert<T>(x: T, s: seq<T>, compare: (T, T) -> int): seq<T> {
    if s == [] || compare(x, s[0]) <= 0 then [x] + s
    else [s[0]] + Insert(x, s[1..], compare)
  }

  /** An element stays before the later elements it ties with. */
  function Sort<T>(s: seq<T>, compare: (T, T) -> int): seq<T> {
    if s == [] then [] else Insert(s[0], Sort(s[1..], compare), compare)
  }

  lemma {:induction false} InsertKeeps<T>(x: T, s: seq<T>, compare: (T, T) -> int)
    ensures multiset(Insert(x, s, compare)) == multiset{x} + multiset(s)
  {
    if s == [] || compare(x, s[0]) <= 0 {
    } else {
      InsertKeeps(x, s[1..], compare);
      assert s == [s[0]] + s[1..];
    }
  }

  lemma {:induction false} InsertMembers<T(!new)>(x: T, s: seq<T>, compare: (T, T) -> int)
    ensures forall y :: y in Insert(x, s, compare) <==> y == x || y in s
  {
    if s == [] || compare(x, s[0]) <= 0 {
    } else {
      InsertMembers(x, s[1..], compare);
      assert s == [s[0]] + s[1..];
    }
  }

  lemma {:induction false} InsertSorted<T(!new)>(x: T, s: seq<T>, compare: (T, T) -> int)
    requires Comparison(compare) && SortedBy(s, compare)
    ensures SortedBy(Insert(x, s, compare), compare)
  {
    if s == [] || compare(x, s[0]) <= 0 {
    } else {
      InsertSorted(x, s[1..], compare);
      var rest := Insert(x, s[1..], compare);
      InsertMembers(x, s[1..], compare);
      assert compare(s[0], x) <= 0;
      assert forall y :: y in s[1..] ==> compare(s[0], y) <= 0;
      hide Insert, SortedBy, Comparison;
      ConsSorted(s[0], rest, compare);
    }
  }

  lemma ConsSorted<T(!new)>(x: T, s: seq<T>, compare: (T, T) -> int)
    requires SortedBy(s, compare) && forall y :: y in s ==> compare(x, y) <= 0
    ensures SortedBy([x] + s, compare)
  {
    forall i, j | 0 <= i < j < |[x] + s| ensures compare(([x] + s)[i], ([x] + s)[j]) <= 0 {
      assert ([x] + s)[j] == s[j - 1];
    }
  }

  /** Sorting permutes, and orders. */
  lemma {:induction false} SortCorrect<T(!new)>(s: seq<T>, compare: (T, T) -> int)
    requires Comparison(compare)
    ensures SortedBy(Sort(s, compare), compare)
    ensures multiset(Sort(s, compare)) == multiset(s)
  {
    if s != [] {
      SortCorrect(s[1..], compare);
      InsertSorted(s[0], Sort(s[1..], compare), compare);
      InsertKeeps(s[0], Sort(s[1..], compare), compare);
      assert s == [s[0]] + s[1..];
    }
  }

  /** The elements that tie with `x`, in order. */
  ghost function Ties<T>(s: seq<T>, x: T, compare: (T, T) -> int): seq<T> {
    if s == [] then [] else (if compare(x, s[0]) == 0 then [s[0]] else []) + Ties(s[1..], x, compare)
  }

  lemma TiesAgree<T(!new)>(x: T, y: T, z: T, compare: (T, T) -> int)
    requires Comparison(compare)
    ensures compare(x, y) == 0 && compare(x, z) == 0 ==> compare(y, z) == 0
  {
    assert compare(x, y) == 0 ==> compare(y, x) == 0;
    assert compare(x, z) == 0 ==> compare(z, x) == 0;
  }

  lemma {:induction false} InsertStable<T(!new)>(y: T, s: seq<T>, x: T, compare: (T, T) -> int)
    requires Comparison(compare)
    ensures Ties(Insert(y, s, compare), x, compare) == Ties([y] + s, x, compare)
  {
    assert ([y] + s)[1..] == s;
    if s != [] && compare(y, s[0]) > 0 {
      InsertStable(y, s[1..], x, compare);
      assert ([y] + s[1..])[1..] == s[1..];
      TiesAgree(x, y, s[0], compare);
    }
  }

  /** Sorting leaves tied elements in their order. */
  lemma {:induction false} SortStable<T(!new)>(s: seq<T>, x: T, compare: (T, T) -> int)
    requires Comparison(compare)
    ensures Ties(Sort(s, compare), x, compare) == Ties(s, x, compare)
  {
    if s != [] {
      var rest := Sort(s[1..], compare);
      SortStable(s[1..], x, compare);
      InsertStable(s[0], rest, x, compare);
      assert ([s[0]] + rest)[1..] == rest;
    }
  }

  lemma SameMultiset<T>(s: seq<T>, t: seq<T>)
    requires multiset(s) == multiset(t)
    ensures |s| == |t| && forall x :: x in s <==> x in t
    ensures Distinct(s) ==> Distinct(t)
  {
    assert |multiset(s)| == |s| && |multiset(t)| == |t|;
    forall x ensures x in s <==> x in t {
      assert x in s <==> x in multiset(s);
      assert x in t <==> x in multiset(t);
    }
    if Distinct(s) {
      forall i, j | 0 <= i < j < |t| ensures t[i] != t[j] {
        OneOccurrence(s, t[j]);
        if t[i] == t[j] {
          TwoOccurrences(t, i, j);
        }
      }
    }
  }

  ghost predicate NoTies<T>(s: seq<T>, compare: (T, T) -> int) {
    forall i, j :: 0 <= i < j < |s| ==> compare(s[i], s[j]) != 0
  }

  lemma NoTiesDistinct<T(!new)>(s: seq<T>, compare: (T, T) -> int)
    requires Comparison(compare) && NoTies(s, compare)
    ensures Distinct(s)
  {
    forall i, j | 0 <= i < j < |s| ensures s[i] != s[j] {
      assert compare(s[i], s[j]) != 0;
      assert compare(s[i], s[i]) == 0;
    }
  }

  lemma NoTie<T(!new)>(s: seq<T>, compare: (T, T) -> int, x: T, y: T)
    requires Comparison(compare) && NoTies(s, compare) && x in s && y in s && x != y
    ensures compare(x, y) != 0
  {
    var a :| 0 <= a < |s| && s[a] == x;
    var b :| 0 <= b < |s| && s[b] == y;
    if a < b {
      assert compare(s[a], s[b]) != 0;
    } else {
      assert compare(s[b], s[a]) != 0;
    }
  }

  /** Elements none of which tie are put in strictly ascending order. */
  lemma SortedStrictly<T(!new)>(s: seq<T>, compare: (T, T) -> int)
    requires Comparison(compare) && NoTies(s, compare)
    ensures var sorted := Sort(s, compare);
      && |sorted| == |s| && (forall x :: x in sorted <==> x in s)
      && forall i, j :: 0 <= i < j < |sorted| ==> compare(sorted[i], sorted[j]) < 0
  {
    var sorted := Sort(s, compare);
    SortCorrect(s, compare);
    NoTiesDistinct(s, compare);
    SameMultiset(s, sorted);
    hide Sort, NoTies;
    forall i, j | 0 <= i < j < |sorted| ensures compare(sorted[i], sorted[j]) < 0 {
      assert compare(sorted[i], sorted[j]) <= 0;
      NoTie(s, compare, sorted[i], sorted[j]);
    }
  }

  lemma TwoOccurrences<T>(t: seq<T>, i: nat, j: nat)
    requires i < j < |t| && t[i] == t[j]
    ensures multiset(t)[t[j]] >= 2
  {
    assert t == t[..j] + t[j..] && t[i] in t[..j] && t[j] in t[j..];
    assert multiset(t) == multiset(t[..j]) + multiset(t[j..]);
    assert t[i] in multiset(t[..j]) && t[j] in multiset(t[j..]);
  }

  lemma {:induction false} OneOccurrence<T>(s: seq<T>, x: T)
    requires Distinct(s)
    ensures multiset(s)[x] <= 1
  {
    if s != [] {
      OneOccurrence(s[1..], x);
      assert s == [s[0]] + s[1..];
    }
  }
}
