/** Total orders and the stable sort that the modelled code takes from its language's library. */
module Ordering {

  ghost predicate TotalPreorder<T(!new)>(le: (T, T) -> bool) {
    && (forall a, b :: le(a, b) || le(b, a))
    && (forall a, b, c :: le(a, b) && le(b, c) ==> le(a, c))
  }

  ghost predicate Antisymmetric<T(!new)>(le: (T, T) -> bool) {
    forall a, b :: le(a, b) && le(b, a) ==> a == b
  }

  ghost predicate Sorted<T>(le: (T, T) -> bool, s: seq<T>) {
    forall i, j :: 0 <= i < j < |s| ==> le(s[i], s[j])
  }

  // ------------------------------------------------------------------ code-unit order of strings

  predicate LexLe(a: string, b: string) {
    a == [] || (b != [] && (a[0] < b[0] || (a[0] == b[0] && LexLe(a[1..], b[1..]))))
  }

  lemma {:induction false} LexTotal(a: string, b: string)
    ensures LexLe(a, b) || LexLe(b, a)
    ensures LexLe(a, b) && LexLe(b, a) ==> a == b
    decreases |a|
  {
    if a != [] && b != [] && a[0] == b[0] {
      LexTotal(a[1..], b[1..]);
      assert a == [a[0]] + a[1..] && b == [b[0]] + b[1..];
    }
  }

  lemma {:induction false} LexTransitive(a: string, b: string, c: string)
    requires LexLe(a, b) && LexLe(b, c)
    ensures LexLe(a, c)
    decreases |a|
  {
    if a != [] && a[0] == b[0] == c[0] {
      LexTransitive(a[1..], b[1..], c[1..]);
    }
  }

  /** The first place where two strings differ decides. */
  lemma {:induction false} LexDecided(a: string, b: string, k: nat)
    requires k < |a| && k < |b| && a[..k] == b[..k] && a[k] < b[k]
    ensures LexLe(a, b) && !LexLe(b, a)
    decreases k
  {
    if k > 0 {
      assert a[0] == a[..k][0] && b[0] == b[..k][0];
      assert a[1..][..k - 1] == a[..k][1..] && b[1..][..k - 1] == b[..k][1..];
      LexDecided(a[1..], b[1..], k - 1);
    }
  }

  lemma LexOrder()
    ensures TotalPreorder(LexLe) && Antisymmetric(LexLe)
  {
    forall a: string, b: string ensures LexLe(a, b) || LexLe(b, a) { LexTotal(a, b); }
    forall a: string, b: string | LexLe(a, b) && LexLe(b, a) ensures a == b { LexTotal(a, b); }
    forall a: string, b: string, c: string | LexLe(a, b) && LexLe(b, c) ensures LexLe(a, c) { LexTransitive(a, b, c); }
  }

  // ------------------------------------------------------------------ stable sort

  /** Inserts `x` after the elements that do not come strictly later. */
  function Insert<T>(le: (T, T) -> bool, s: seq<T>, x: T): seq<T> {
    if s == [] || le(s[|s| - 1], x) then s + [x]
    else Insert(le, s[..|s| - 1], x) + [s[|s| - 1]]
  }

  function StableSort<T>(le: (T, T) -> bool, s: seq<T>): seq<T> {
    if s == [] then [] else Insert(le, StableSort(le, s[..|s| - 1]), s[|s| - 1])
  }

  ghost predicate AllBelow<T>(le: (T, T) -> bool, s: seq<T>, x: T) {
    forall y :: y in s ==> le(y, x)
  }

  lemma SortedAppend<T(!new)>(le: (T, T) -> bool, s: seq<T>, x: T)
    requires Sorted(le, s) && AllBelow(le, s, x)
    ensures Sorted(le, s + [x])
  {
    forall i, j | 0 <= i < j < |s| + 1 ensures le((s + [x])[i], (s + [x])[j]) {
      if j == |s| { assert s[i] in s; }
    }
  }

  lemma BelowLast<T(!new)>(le: (T, T) -> bool, s: seq<T>)
    requires s != [] && Sorted(le, s)
    ensures Sorted(le, s[..|s| - 1]) && AllBelow(le, s[..|s| - 1], s[|s| - 1])
  {
  }

  lemma {:induction false} InsertMembers<T>(le: (T, T) -> bool, s: seq<T>, x: T)
    ensures multiset(Insert(le, s, x)) == multiset(s) + multiset{x}
    ensures |Insert(le, s, x)| == |s| + 1
    ensures forall y :: y in Insert(le, s, x) ==> y in s || y == x
    decreases |s|
  {
    if s != [] && !le(s[|s| - 1], x) {
      InsertMembers(le, s[..|s| - 1], x);
      assert s == s[..|s| - 1] + [s[|s| - 1]];
    }
  }

  lemma {:induction false} InsertSorted<T(!new)>(le: (T, T) -> bool, s: seq<T>, x: T)
    requires TotalPreorder(le) && Sorted(le, s)
    ensures Sorted(le, Insert(le, s, x))
    decreases |s|
  {
    if s == [] {
    } else {
      var init, last := s[..|s| - 1], s[|s| - 1];
      BelowLast(le, s);
      if le(last, x) {
        forall y | y in s ensures le(y, x) {
          assert y == last || y in init;
        }
        SortedAppend(le, s, x);
      } else {
        InsertSorted(le, init, x);
        InsertMembers(le, init, x);
        SortedAppend(le, Insert(le, init, x), last);
      }
    }
  }

  lemma {:induction false} SortProperties<T(!new)>(le: (T, T) -> bool, s: seq<T>)
    requires TotalPreorder(le)
    ensures Sorted(le, StableSort(le, s))
    ensures multiset(StableSort(le, s)) == multiset(s)
    ensures |StableSort(le, s)| == |s|
    decreases |s|
  {
    if s != [] {
      SortProperties(le, s[..|s| - 1]);
      InsertSorted(le, StableSort(le, s[..|s| - 1]), s[|s| - 1]);
      InsertMembers(le, StableSort(le, s[..|s| - 1]), s[|s| - 1]);
      assert s == s[..|s| - 1] + [s[|s| - 1]];
    }
  }

  lemma InitMultiset<T>(s: seq<T>)
    requires s != []
    ensures multiset(s[..|s| - 1]) == multiset(s) - multiset{s[|s| - 1]}
  {
    assert s == s[..|s| - 1] + [s[|s| - 1]];
  }

  /** The last element of a sorted sequence is above every element. */
  lemma LastIsGreatest<T(!new)>(le: (T, T) -> bool, s: seq<T>, y: T)
    requires Sorted(le, s) && y in multiset(s)
    ensures y == s[|s| - 1] || le(y, s[|s| - 1])
  {
    var i :| 0 <= i < |s| && s[i] == y;
  }

  /** A sorted arrangement in a total order is determined by its elements. */
  lemma {:induction false} SortedUnique<T(!new)>(le: (T, T) -> bool, a: seq<T>, b: seq<T>)
    requires Antisymmetric(le)
    requires Sorted(le, a) && Sorted(le, b) && multiset(a) == multiset(b)
    ensures a == b
    decreases |a|
  {
    SameLength(a, b);
    if a != [] {
      SameLast(le, a, b);
      SortedUnique(le, a[..|a| - 1], b[..|b| - 1]);
      Unsplit(a, b);
    }
  }

  lemma SameLength<T>(a: seq<T>, b: seq<T>)
    requires multiset(a) == multiset(b)
    ensures |a| == |b|
  {
    assert |a| == |multiset(a)| && |b| == |multiset(b)|;
  }

  lemma Unsplit<T>(a: seq<T>, b: seq<T>)
    requires a != [] && b != [] && a[..|a| - 1] == b[..|b| - 1] && a[|a| - 1] == b[|b| - 1]
    ensures a == b
  {
    assert a == a[..|a| - 1] + [a[|a| - 1]] && b == b[..|b| - 1] + [b[|b| - 1]];
  }

  lemma SameLast<T(!new)>(le: (T, T) -> bool, a: seq<T>, b: seq<T>)
    requires Antisymmetric(le) && a != [] && b != []
    requires Sorted(le, a) && Sorted(le, b) && multiset(a) == multiset(b)
    ensures a[|a| - 1] == b[|b| - 1]
    ensures multiset(a[..|a| - 1]) == multiset(b[..|b| - 1])
    ensures Sorted(le, a[..|a| - 1]) && Sorted(le, b[..|b| - 1])
  {
    var x, y := a[|a| - 1], b[|b| - 1];
    assert x in multiset(a) && y in multiset(b);
    LastIsGreatest(le, a, y);
    LastIsGreatest(le, b, x);
    InitMultiset(a);
    InitMultiset(b);
  }

  // ------------------------------------------------------------------ filtering

  function Filter<T>(keep: T -> bool, s: seq<T>): seq<T> {
    if s == [] then []
    else if keep(s[|s| - 1]) then Filter(keep, s[..|s| - 1]) + [s[|s| - 1]]
    else Filter(keep, s[..|s| - 1])
  }

  lemma {:induction false} FilterMembers<T>(keep: T -> bool, s: seq<T>)
    ensures forall x :: x in Filter(keep, s) <==> x in s && keep(x)
    ensures |Filter(keep, s)| <= |s|
    decreases |s|
  {
    if s != [] {
      FilterMembers(keep, s[..|s| - 1]);
      assert s == s[..|s| - 1] + [s[|s| - 1]];
    }
  }

  lemma {:induction false} FilterSorted<T(!new)>(le: (T, T) -> bool, keep: T -> bool, s: seq<T>)
    requires Sorted(le, s)
    ensures Sorted(le, Filter(keep, s))
    decreases |s|
  {
    if s != [] {
      BelowLast(le, s);
      FilterSorted(le, keep, s[..|s| - 1]);
      FilterMembers(keep, s[..|s| - 1]);
      SortedAppend(le, Filter(keep, s[..|s| - 1]), s[|s| - 1]);
    }
  }

  lemma {:induction false} FilterMultiset<T>(keep: T -> bool, s: seq<T>, x: T)
    ensures multiset(Filter(keep, s))[x] == if keep(x) then multiset(s)[x] else 0
    decreases |s|
  {
    if s != [] {
      FilterMultiset(keep, s[..|s| - 1], x);
      assert s == s[..|s| - 1] + [s[|s| - 1]];
    }
  }

  /** Sorting a total order commutes with filtering. */
  lemma FilterOfSort<T(!new)>(le: (T, T) -> bool, keep: T -> bool, s: seq<T>)
    requires TotalPreorder(le) && Antisymmetric(le)
    ensures Filter(keep, StableSort(le, s)) == StableSort(le, Filter(keep, s))
  {
    SortProperties(le, s);
    SortProperties(le, Filter(keep, s));
    FilterSorted(le, keep, StableSort(le, s));
    var a, b := Filter(keep, StableSort(le, s)), StableSort(le, Filter(keep, s));
    forall x ensures multiset(a)[x] == multiset(b)[x] {
      FilterMultiset(keep, StableSort(le, s), x);
      FilterMultiset(keep, s, x);
    }
    SortedUnique(le, a, b);
  }

  /** Ties keep their order: the sort restricted to what is equal to `x` is the input restricted to it. */
  lemma {:induction false} SortKeepsTies<T(!new)>(le: (T, T) -> bool, s: seq<T>, x: T, tie: T -> bool)
    requires TotalPreorder(le) && forall y :: tie(y) <==> le(x, y) && le(y, x)
    ensures Filter(tie, StableSort(le, s)) == Filter(tie, s)
    decreases |s|
  {
    if s != [] {
      var init, last := s[..|s| - 1], s[|s| - 1];
      SortKeepsTies(le, init, x, tie);
      SortProperties(le, init);
      InsertKeepsTies(le, StableSort(le, init), last, x, tie);
    }
  }

  lemma {:induction false} InsertKeepsTies<T(!new)>(le: (T, T) -> bool, s: seq<T>, e: T, x: T, tie: T -> bool)
    requires TotalPreorder(le) && Sorted(le, s) && forall y :: tie(y) <==> le(x, y) && le(y, x)
    ensures Filter(tie, Insert(le, s, e)) == if tie(e) then Filter(tie, s) + [e] else Filter(tie, s)
    decreases |s|
  {
    if s == [] || le(s[|s| - 1], e) {
      assert (s + [e])[..|s|] == s;
    } else {
      var init, last := s[..|s| - 1], s[|s| - 1];
      InsertKeepsTies(le, init, e, x, tie);
      var t := Insert(le, init, e);
      assert (t + [last])[..|t|] == t;
    }
  }
}
