/** The median used for median-time-past: sort, then take the upper middle element. */
module Median {

  predicate IsSorted(s: seq<int>)
  {
    forall i, j :: 0 <= i < j < |s| ==> s[i] <= s[j]
  }

  function Insert(x: int, s: seq<int>): seq<int>
  {
    if s == [] || x <= s[0] then [x] + s else [s[0]] + Insert(x, s[1..])
  }

  /** `list.sort`. */
  function Sort(s: seq<int>): (r: seq<int>)
    ensures |r| == |s|
    ensures IsSorted(r) && multiset(r) == multiset(s)
  {
    if s == [] then []
    else
      assert s == [s[0]] + s[1..];
      var tail := Sort(s[1..]);
      InsertSorts(s[0], tail);
      Insert(s[0], tail)
  }

  lemma {:induction false} InsertKeeps(x: int, s: seq<int>)
    ensures |Insert(x, s)| == |s| + 1
    ensures multiset(Insert(x, s)) == multiset(s) + multiset{x}
  {
    if s != [] && x > s[0] {
      InsertKeeps(x, s[1..]);
      assert s == [s[0]] + s[1..];
    }
  }

  lemma {:induction false} InsertSorts(x: int, s: seq<int>)
    requires IsSorted(s)
    ensures IsSorted(Insert(x, s))
    ensures multiset(Insert(x, s)) == multiset(s) + multiset{x}
    ensures |Insert(x, s)| == |s| + 1
  {
    InsertKeeps(x, s);
    if s != [] && x > s[0] {
      InsertSorts(x, s[1..]);
      PrependSorted(s[0], Insert(x, s[1..]), x, s[1..]);
    }
  }

  lemma PrependSorted(low: int, r: seq<int>, x: int, s: seq<int>)
    requires IsSorted(r) && multiset(r) == multiset(s) + multiset{x}
    requires low <= x && forall i :: 0 <= i < |s| ==> low <= s[i]
    ensures IsSorted([low] + r)
  {
    forall i | 0 <= i < |r| ensures low <= r[i] {
      assert r[i] in multiset(r);
    }
  }

  function Median(s: seq<int>): int
    requires s != []
  {
    Sort(s)[|s| / 2]
  }

  function CountAtLeast(s: seq<int>, m: int): nat
  {
    if s == [] then 0 else CountAtLeast(s[1..], m) + if s[0] >= m then 1 else 0
  }

  lemma {:induction false} CountConcat(a: seq<int>, b: seq<int>, m: int)
    ensures CountAtLeast(a + b, m) == CountAtLeast(a, m) + CountAtLeast(b, m)
  {
    if a == [] {
      assert a + b == b;
    } else {
      CountConcat(a[1..], b, m);
      assert (a + b)[1..] == a[1..] + b;
    }
  }

  lemma {:induction false} CountInsert(x: int, s: seq<int>, m: int)
    ensures CountAtLeast(Insert(x, s), m) == CountAtLeast([x] + s, m)
  {
    if s != [] && x > s[0] {
      CountInsert(x, s[1..], m);
      assert ([x] + s)[1..] == s && ([x] + s[1..])[1..] == s[1..];
      assert Insert(x, s)[1..] == Insert(x, s[1..]);
    }
  }

  lemma {:induction false} CountSort(s: seq<int>, m: int)
    ensures CountAtLeast(Sort(s), m) == CountAtLeast(s, m)
  {
    if s != [] {
      CountSort(s[1..], m);
      CountInsert(s[0], Sort(s[1..]), m);
      assert ([s[0]] + Sort(s[1..]))[1..] == Sort(s[1..]);
    }
  }

  /** In a sorted list, position i holds at least m exactly when enough elements do. */
  lemma {:induction false} SortedCount(s: seq<int>, m: int, i: nat)
    requires IsSorted(s) && i < |s|
    ensures s[i] >= m <==> CountAtLeast(s, m) >= |s| - i
    ensures CountAtLeast(s, m) <= |s|
  {
    if |s| > 1 {
      SortedCount(s[1..], m, if i == 0 then 0 else i - 1);
    } else {
      assert s[1..] == [];
    }
  }

  /** The median is at least m exactly when the upper half of the list is. */
  lemma MedianCount(s: seq<int>, m: int)
    requires s != []
    ensures Median(s) >= m <==> CountAtLeast(s, m) >= |s| - |s| / 2
  {
    CountSort(s, m);
    SortedCount(Sort(s), m, |s| / 2);
  }

  lemma GrowingWindow(s: seq<int>, t: int)
    requires s != [] && t >= Median(s)
    ensures Median(s + [t]) >= Median(s)
  {
    var m := Median(s);
    MedianCount(s, m);
    MedianCount(s + [t], m);
    CountConcat(s, [t], m);
  }

  lemma SlidingWindow(s: seq<int>, t: int)
    requires s != [] && t >= Median(s)
    ensures Median(s[1..] + [t]) >= Median(s)
  {
    var m := Median(s);
    MedianCount(s, m);
    MedianCount(s[1..] + [t], m);
    CountConcat(s[1..], [t], m);
  }
}
