/** Small facts about numbers, sets and sequences that several models use. */
module Collections {

  function Min(a: int, b: int): int {
    if a <= b then a else b
  }

  /** The first `n` elements, or all if there are fewer. */
  function Take<T>(n: nat, s: seq<T>): seq<T> {
    if |s| <= n then s else s[..n]
  }

  lemma LastApart<T>(s: seq<T>)
    requires s != []
    ensures s == s[..|s| - 1] + [s[|s| - 1]]
  {
  }

  lemma WithoutLast<T>(a: seq<T>, b: seq<T>)
    requires b != []
    ensures (a + b)[..|a + b| - 1] == a + b[..|b| - 1] && (a + b)[|a + b| - 1] == b[|b| - 1]
  {
  }

  lemma Associative<T>(a: seq<T>, b: seq<T>, c: seq<T>)
    ensures a + (b + c) == (a + b) + c
  {
  }

  /** The numbers before `n`. */
  ghost function Below(n: nat): (s: set<nat>)
    ensures |s| == n && forall i: nat :: i in s <==> i < n
  {
    if n == 0 then {} else Below(n - 1) + {n - 1}
  }

  lemma {:induction false} ImageCount<T>(s: seq<T>, n: nat)
    requires n <= |s| && forall i, j :: 0 <= i < j < n ==> s[i] != s[j]
    ensures |set i | 0 <= i < n :: s[i]| == n
  {
    if n > 0 {
      ImageCount(s, n - 1);
      assert (set i | 0 <= i < n :: s[i]) == (set i | 0 <= i < n - 1 :: s[i]) + {s[n - 1]};
    }
  }
}
