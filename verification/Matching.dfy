/**
 Benchmark matching: every expected finding is paired with at most one reported finding by
 augmenting-path search (`match_expected_findings` in benchmark/matching.py).

 The searches share one mutable assignment and, within one search, one mutable visited set.
 A failed search leaves behind a set of findings that no later search can get out of; the
 union of these sets is a vertex-cover certificate that the final assignment is maximum.
 */
module Matching {
  import opened Collections
  // ------------------------------------------------------------------ matchings over indices

  /** `c[e]` lists the findings that match expected finding `e`; `m` maps findings to expected findings. */
  ghost predicate UsesEdges(c: seq<seq<nat>>, m: map<nat, nat>) {
    forall f :: f in m ==> m[f] < |c| && f in c[m[f]]
  }

  ghost predicate Injective(m: map<nat, nat>) {
    forall f, g :: f in m && g in m && f != g ==> m[f] != m[g]
  }

  ghost predicate IsMatching(c: seq<seq<nat>>, m: map<nat, nat>) {
    UsesEdges(c, m) && Injective(m)
  }

  /** Every finding of `s` is taken, and whoever holds it has no candidate outside `s`. */
  ghost predicate Blocked(c: seq<seq<nat>>, m: map<nat, nat>, s: set<nat>) {
    forall f :: f in s ==> f in m && m[f] < |c| && Within(c[m[f]], s)
  }

  ghost predicate Within(candidates: seq<nat>, s: set<nat>) {
    forall f :: f in candidates ==> f in s
  }

  ghost function HoldersOutside(m: map<nat, nat>, s: set<nat>): set<nat> {
    set f | f in m && f !in s :: m[f]
  }

  /** What a successful search for `e`, started with `seen` already visited, does to the assignment.
      Inside `seen` nothing moves, so a holder of a `seen` finding may occur twice until the caller,
      which put that finding into `seen`, overwrites it. */
  ghost predicate Augmented(c: seq<seq<nat>>, m: map<nat, nat>, m': map<nat, nat>, e: nat, seen: set<nat>) {
    && UsesEdges(c, m')
    && (exists g :: g !in m && g !in seen && m'.Keys == m.Keys + {g})
    && (forall f :: f in m && f in seen ==> f in m' && m'[f] == m[f])
    && (forall f, g :: f in m' && g in m' && f !in seen && g !in seen && f != g ==> m'[f] != m'[g])
    && HoldersOutside(m', seen) == HoldersOutside(m, seen) + {e}
  }

  lemma TakeFreeFinding(c: seq<seq<nat>>, m: map<nat, nat>, e: nat, f: nat, seen: set<nat>)
    requires IsMatching(c, m) && e < |c| && f in c[e]
    requires f !in m && f !in seen
    requires e !in HoldersOutside(m, seen)
    ensures Augmented(c, m, m[f := e], e, seen)
  {
    var m' := m[f := e];
    assert f !in m && f !in seen && m'.Keys == m.Keys + {f};
    assert m'[f] == e;
    forall x | x in HoldersOutside(m, seen) ensures x in HoldersOutside(m', seen) {
      var g :| g in m && g !in seen && m[g] == x;
      assert m'[g] == x;
    }
    assert forall g :: g in m && g !in seen ==> m[g] in HoldersOutside(m, seen);
  }

  /** The holder of `f` has been moved elsewhere, so `f` can be handed to `e`. */
  lemma TakeReleasedFinding(c: seq<seq<nat>>, m: map<nat, nat>, m': map<nat, nat>,
                            e: nat, f: nat, start: set<nat>, seen: set<nat>)
    requires IsMatching(c, m) && e < |c| && f in c[e]
    requires start <= seen && f !in seen && f in m
    requires e !in HoldersOutside(m, start)
    requires Augmented(c, m, m', m[f], seen + {f})
    ensures Augmented(c, m, m'[f := e], e, start)
  {
    var r, seen' := m'[f := e], seen + {f};
    var g :| g !in m && g !in seen' && m'.Keys == m.Keys + {g};
    assert g !in start && r.Keys == m.Keys + {g};
    ReleasedHolders(m, m', e, f, start, seen);
    forall h, k | h in r && k in r && h !in start && k !in start && h != k ensures r[h] != r[k] {
      ReleasedHolder(m, m', e, f, start, seen, h);
      ReleasedHolder(m, m', e, f, start, seen, k);
    }
  }

  /** Where the holder of `h` comes from after the release: itself (`h` visited earlier), `e`, the
      released holder, or someone who held a finding not visited yet. */
  lemma ReleasedHolder(m: map<nat, nat>, m': map<nat, nat>, e: nat, f: nat, start: set<nat>, seen: set<nat>, h: nat)
    requires Injective(m) && start <= seen && f !in seen && f in m
    requires e !in HoldersOutside(m, start)
    requires forall h :: h in m && h in seen + {f} ==> h in m' && m'[h] == m[h]
    requires HoldersOutside(m', seen + {f}) == HoldersOutside(m, seen + {f}) + {m[f]}
    requires h in m' && h !in start && (h in seen + {f} ==> h in m)
    ensures h in seen ==> m'[h] == m[h] && m[h] != e && m[h] != m[f] && m[h] !in HoldersOutside(m, seen + {f})
    ensures h !in seen + {f} ==>
      m'[h] != e && (m'[h] == m[f] || m'[h] in HoldersOutside(m, seen + {f}))
  {
    assert forall k :: k in m && k !in start ==> m[k] in HoldersOutside(m, start);
    if h !in seen + {f} {
      assert m'[h] in HoldersOutside(m', seen + {f});
    }
  }

  lemma ReleasedHolders(m: map<nat, nat>, m': map<nat, nat>, e: nat, f: nat, start: set<nat>, seen: set<nat>)
    requires start <= seen && f !in seen && f in m && m.Keys <= m'.Keys
    requires forall h :: h in m' && h in seen ==> h in m && m'[h] == m[h]
    requires HoldersOutside(m', seen + {f}) == HoldersOutside(m, seen + {f}) + {m[f]}
    ensures HoldersOutside(m'[f := e], start) == HoldersOutside(m, start) + {e}
  {
    var r := m'[f := e];
    forall x | x in HoldersOutside(m, start) + {e} ensures x in HoldersOutside(r, start) {
      if x == e {
        assert r[f] == e;
      } else {
        var h :| h in m && h !in start && m[h] == x;
        if h in seen {
          assert r[h] == x;
        } else {
          assert h == f || x in HoldersOutside(m, seen + {f});
          assert x in HoldersOutside(m', seen + {f});
          var k :| k in m' && k !in seen + {f} && m'[k] == x;
          assert r[k] == x;
        }
      }
    }
    forall x | x in HoldersOutside(r, start) && x != e ensures x in HoldersOutside(m, start) {
      var h :| h in r && h !in start && r[h] == x;
      if h !in seen {
        assert x in HoldersOutside(m', seen + {f});
      }
    }
  }

  // ------------------------------------------------------------------ the search

  class Matcher {
    const candidates: seq<seq<nat>>
    const findingCount: nat
    var matchedFindingToExpected: map<nat, nat>
    var seenFindings: set<nat>

    ghost predicate InRange() {
      forall e, f: nat :: 0 <= e < |candidates| && f in candidates[e] ==> f < findingCount
    }

    ghost predicate Valid()
      reads this
    {
      InRange() && IsMatching(candidates, matchedFindingToExpected)
    }

    ghost function Findings(): set<nat> {
      Below(findingCount)
    }

    constructor (candidates: seq<seq<nat>>, findingCount: nat)
      requires forall e, f: nat :: 0 <= e < |candidates| && f in candidates[e] ==> f < findingCount
      ensures Valid() && this.candidates == candidates && this.findingCount == findingCount
      ensures matchedFindingToExpected == map[]
    {
      this.candidates := candidates;
      this.findingCount := findingCount;
      matchedFindingToExpected := map[];
      seenFindings := {};
    }

    /** `assign`: either moves the assignment along an augmenting path for `e`, or changes nothing
        but `seenFindings` and has then visited every candidate of `e` and of the holders it met.
        `blocked` is any set of findings that is already stuck: the search gets nothing out of it. */
    method Assign(e: nat, ghost blocked: set<nat>) returns (ok: bool)
      requires Valid() && e < |candidates|
      requires e !in HoldersOutside(matchedFindingToExpected, seenFindings)
      requires Blocked(candidates, matchedFindingToExpected, blocked)
      modifies this`matchedFindingToExpected, this`seenFindings
      ensures old(seenFindings) <= seenFindings
      ensures !ok ==>
        && matchedFindingToExpected == old(matchedFindingToExpected)
        && Within(candidates[e], seenFindings)
        && (forall f :: f in seenFindings - old(seenFindings) ==>
              f in matchedFindingToExpected && Within(candidates[matchedFindingToExpected[f]], seenFindings))
      ensures ok ==>
        && Augmented(candidates, old(matchedFindingToExpected), matchedFindingToExpected, e, old(seenFindings))
        && (forall f :: f in blocked ==>
              f in matchedFindingToExpected && matchedFindingToExpected[f] == old(matchedFindingToExpected)[f])
        && !Within(candidates[e], blocked)
      decreases Findings() - seenFindings
    {
      ghost var before, start := matchedFindingToExpected, seenFindings;
      for i := 0 to |candidates[e]|
        invariant matchedFindingToExpected == before && start <= seenFindings
        invariant forall k :: 0 <= k < i ==> candidates[e][k] in seenFindings
        invariant forall f :: f in seenFindings - start ==>
          f in before && Within(candidates[before[f]], seenFindings)
      {
        var f := candidates[e][i];
        if f in seenFindings {
          continue;
        }
        ghost var seen := seenFindings;
        seenFindings := seenFindings + {f};
        var free := f !in matchedFindingToExpected;
        if free {
          TakeFreeFinding(candidates, before, e, f, start);
        } else {
          var current := matchedFindingToExpected[f];
          assert f in Findings() - start;
          assert current !in HoldersOutside(before, seenFindings);
          free := Assign(current, blocked);
          if free {
            TakeReleasedFinding(candidates, before, matchedFindingToExpected, e, f, start, seen);
          }
        }
        if free {
          assert f in candidates[e] && f !in blocked;
          matchedFindingToExpected := matchedFindingToExpected[f := e];
          return true;
        }
      }
      return false;
    }

    /** One root search per expected finding that has a candidate, in the given order.
        `blocked` collects what the failed searches visited. */
    method AssignAll(order: seq<nat>) returns (ghost blocked: set<nat>)
      requires Valid() && matchedFindingToExpected == map[]
      requires forall i :: 0 <= i < |order| ==> order[i] < |candidates|
      requires forall i, j :: 0 <= i < j < |order| ==> order[i] != order[j]
      modifies this`matchedFindingToExpected, this`seenFindings
      ensures Valid()
      ensures Blocked(candidates, matchedFindingToExpected, blocked)
      ensures forall e: nat :: e in order ==> e in matchedFindingToExpected.Values || Within(candidates[e], blocked)
      ensures Greedy(candidates, matchedFindingToExpected, order)
    {
      blocked := {};
      ghost var walls: map<nat, set<nat>> := map[];
      for i := 0 to |order|
        invariant Valid()
        invariant Blocked(candidates, matchedFindingToExpected, blocked)
        invariant forall e :: e in matchedFindingToExpected.Values ==> e in order[..i]
        invariant AllWalled(candidates, matchedFindingToExpected, order, i, blocked, walls)
      {
        var e := order[i];
        if |candidates[e]| != 0 {
          ghost var before := matchedFindingToExpected;
          seenFindings := {};
          assert e !in before.Values;
          var ok := Assign(e, blocked);
          if ok {
            SearchFromScratch(candidates, before, matchedFindingToExpected, e);
            WalledAfterMatch(candidates, before, matchedFindingToExpected, order, i, blocked, walls);
          } else {
            WalledAfterFailure(candidates, before, order, i, blocked, blocked + seenFindings, walls);
            blocked := blocked + seenFindings;
            walls := walls[i := blocked];
          }
        } else {
          WalledAfterFailure(candidates, matchedFindingToExpected, order, i, blocked, blocked, walls);
          walls := walls[i := blocked];
        }
      }
      WalledIsGreedy(candidates, matchedFindingToExpected, order, blocked, walls);
      WalledIsWithin(candidates, matchedFindingToExpected, order, blocked, walls);
    }
  }

  lemma SearchFromScratch(c: seq<seq<nat>>, m: map<nat, nat>, m': map<nat, nat>, e: nat)
    requires IsMatching(c, m) && Augmented(c, m, m', e, {})
    ensures IsMatching(c, m') && m'.Values == m.Values + {e}
  {
    assert m.Values == HoldersOutside(m, {}) && m'.Values == HoldersOutside(m', {});
  }

  // ------------------------------------------------------------------ who is matched

  /** Those of the first `i` expected findings in the order that are matched. */
  ghost function MatchedBefore(m: map<nat, nat>, order: seq<nat>, i: nat): set<nat>
    requires i <= |order|
  {
    set k | 0 <= k < i && order[k] in m.Values :: order[k]
  }

  /** No matching covers all of these expected findings. */
  ghost predicate Uncoverable(c: seq<seq<nat>>, es: set<nat>) {
    forall other :: IsMatching(c, other) ==> !(es <= other.Values)
  }

  /** In the given order each expected finding is matched unless it cannot be matched together with all those
      matched before it. */
  ghost predicate Greedy(c: seq<seq<nat>>, m: map<nat, nat>, order: seq<nat>) {
    forall i :: 0 <= i < |order| && order[i] !in m.Values ==>
      Uncoverable(c, MatchedBefore(m, order, i) + {order[i]})
  }

  /** That determines who is matched. */
  lemma {:induction false} GreedyUnique(c: seq<seq<nat>>, a: map<nat, nat>, b: map<nat, nat>, order: seq<nat>, n: nat)
    requires IsMatching(c, a) && IsMatching(c, b) && Greedy(c, a, order) && Greedy(c, b, order) && n <= |order|
    ensures forall k :: 0 <= k < n ==> (order[k] in a.Values <==> order[k] in b.Values)
  {
    if n > 0 {
      GreedyUnique(c, a, b, order, n - 1);
      assert MatchedBefore(a, order, n - 1) == MatchedBefore(b, order, n - 1);
      assert MatchedBefore(a, order, n - 1) <= a.Values && MatchedBefore(b, order, n - 1) <= b.Values;
    }
  }

  /** The findings of `wall` are blocked and held by expected findings that come before the `k`-th, and the
      `k`-th has no candidate outside. */
  ghost predicate Walled(c: seq<seq<nat>>, m: map<nat, nat>, order: seq<nat>, k: nat, wall: set<nat>) {
    && k < |order| && order[k] < |c| && Within(c[order[k]], wall) && Blocked(c, m, wall)
    && forall f :: f in wall ==> m[f] in order[..k]
  }

  /** Each of the first `n` expected findings in the order is matched or walled in. */
  ghost predicate AllWalled(c: seq<seq<nat>>, m: map<nat, nat>, order: seq<nat>, n: nat, blocked: set<nat>,
                            walls: map<nat, set<nat>>) {
    && n <= |order|
    && (forall k :: k in walls ==> walls[k] <= blocked && Walled(c, m, order, k, walls[k]))
    && (forall k :: 0 <= k < n && order[k] !in m.Values ==> k in walls)
  }

  /** A search that succeeds moves nothing that is blocked. */
  lemma WalledAfterMatch(c: seq<seq<nat>>, m: map<nat, nat>, m': map<nat, nat>, order: seq<nat>, i: nat,
                         blocked: set<nat>, walls: map<nat, set<nat>>)
    requires AllWalled(c, m, order, i, blocked, walls) && i < |order|
    requires forall f :: f in blocked ==> f in m' && f in m && m'[f] == m[f]
    requires m'.Values == m.Values + {order[i]}
    ensures AllWalled(c, m', order, i + 1, blocked, walls)
  {
    forall k | k in walls ensures Walled(c, m', order, k, walls[k]) {
      assert Walled(c, m, order, k, walls[k]);
    }
  }

  /** A search that fails leaves its expected finding walled in. */
  lemma WalledAfterFailure(c: seq<seq<nat>>, m: map<nat, nat>, order: seq<nat>, i: nat, blocked: set<nat>,
                           more: set<nat>, walls: map<nat, set<nat>>)
    requires AllWalled(c, m, order, i, blocked, walls) && i < |order| && order[i] < |c|
    requires blocked <= more && Blocked(c, m, more) && Within(c[order[i]], more)
    requires forall e :: e in m.Values ==> e in order[..i]
    ensures AllWalled(c, m, order, i + 1, more, walls[i := more])
  {
    forall f | f in more ensures m[f] in order[..i] {
      assert m[f] in m.Values;
    }
    assert Walled(c, m, order, i, more);
  }

  lemma WalledIsWithin(c: seq<seq<nat>>, m: map<nat, nat>, order: seq<nat>, blocked: set<nat>,
                       walls: map<nat, set<nat>>)
    requires AllWalled(c, m, order, |order|, blocked, walls) && forall i :: 0 <= i < |order| ==> order[i] < |c|
    ensures forall e: nat :: e in order ==> e in m.Values || Within(c[e], blocked)
  {
    forall e: nat | e in order && e !in m.Values ensures Within(c[e], blocked) {
      var k :| 0 <= k < |order| && order[k] == e;
      assert Walled(c, m, order, k, walls[k]);
    }
  }

  lemma WalledIsGreedy(c: seq<seq<nat>>, m: map<nat, nat>, order: seq<nat>, blocked: set<nat>,
                       walls: map<nat, set<nat>>)
    requires IsMatching(c, m) && AllWalled(c, m, order, |order|, blocked, walls)
    requires forall i, j :: 0 <= i < j < |order| ==> order[i] != order[j]
    ensures Greedy(c, m, order)
  {
    forall i, other | 0 <= i < |order| && order[i] !in m.Values && IsMatching(c, other)
      ensures !(MatchedBefore(m, order, i) + {order[i]} <= other.Values)
    {
      assert Walled(c, m, order, i, walls[i]);
      WallTooSmall(c, m, order, i, walls[i], other);
    }
  }

  /** Whoever holds a wall of `n` findings, together with one more that has no candidate outside, would need
      `n + 1` of them. */
  lemma WallTooSmall(c: seq<seq<nat>>, m: map<nat, nat>, order: seq<nat>, i: nat, wall: set<nat>, other: map<nat, nat>)
    requires IsMatching(c, m) && IsMatching(c, other) && Walled(c, m, order, i, wall) && order[i] !in m.Values
    ensures !(MatchedBefore(m, order, i) + {order[i]} <= other.Values)
  {
    var held := map f | f in wall :: m[f];
    ValuesCount(held);
    assert held.Keys == wall;
    forall e | e in held.Values ensures e in MatchedBefore(m, order, i) {
      var f :| f in wall && m[f] == e;
      var k :| 0 <= k < i && order[..i][k] == e;
      assert order[k] == e && e in m.Values;
    }
    if MatchedBefore(m, order, i) + {order[i]} <= other.Values {
      CoveredFindings(c, m, wall, held.Values, order[i], other);
    }
  }

  lemma CoveredFindings(c: seq<seq<nat>>, m: map<nat, nat>, wall: set<nat>, holders: set<nat>, e: nat,
                        other: map<nat, nat>)
    requires Injective(other) && UsesEdges(c, other) && holders + {e} <= other.Values && e !in holders
    requires e < |c| && Within(c[e], wall)
    requires forall x :: x in holders ==> x < |c| && Within(c[x], wall)
    ensures |holders| < |wall|
  {
    var back := map x | x in holders + {e} :: FindingOf(other, x);
    forall x | x in back ensures back[x] in wall {
      assert back[x] in c[x];
    }
    assert back.Values <= wall;
    InjectionBound(back, wall);
    assert |back| == |back.Keys| && back.Keys == holders + {e};
  }

  // ------------------------------------------------------------------ optimality

  lemma {:induction false} InjectionBound(phi: map<nat, nat>, target: set<nat>)
    requires Injective(phi) && phi.Values <= target
    ensures |phi| <= |target|
    decreases |phi|
  {
    if f :| f in phi {
      var rest := phi - {f};
      assert phi.Keys == rest.Keys + {f};
      assert forall g :: g in rest ==> rest[g] in phi.Values && rest[g] != phi[f];
      assert phi[f] in phi.Values;
      InjectionBound(rest, target - {phi[f]});
    }
  }

  ghost function FindingOf(m: map<nat, nat>, e: nat): (f: nat)
    requires e in m.Values
    ensures f in m && m[f] == e
  {
    var f :| f in m && m[f] == e;
    f
  }

  lemma HeldOutside(c: seq<seq<nat>>, m: map<nat, nat>, blocked: set<nat>, other: map<nat, nat>, f: nat)
    requires IsMatching(c, m) && Blocked(c, m, blocked) && IsMatching(c, other) && f in other && f !in blocked
    requires forall e :: 0 <= e < |c| ==> e in m.Values || Within(c[e], blocked)
    ensures other[f] in m.Values && FindingOf(m, other[f]) in m && FindingOf(m, other[f]) !in blocked
  {
    assert f in c[other[f]] && !Within(c[other[f]], blocked);
    var g := FindingOf(m, other[f]);
  }

  lemma SubstitutesDiffer(c: seq<seq<nat>>, m: map<nat, nat>, blocked: set<nat>, other: map<nat, nat>, f: nat, g: nat,
                          p: nat, q: nat)
    requires IsMatching(c, m) && Blocked(c, m, blocked) && IsMatching(c, other)
    requires f in other && g in other && f != g
    requires if f in blocked then p == f else p in m && p !in blocked && m[p] == other[f]
    requires if g in blocked then q == g else q in m && q !in blocked && m[q] == other[g]
    ensures p != q
  {
    assert other[f] != other[g];
  }

  /** The certificate: if whoever is left without a finding has all its candidates in a blocked set,
      no matching is larger. */
  lemma BlockedMeansMaximum(c: seq<seq<nat>>, m: map<nat, nat>, blocked: set<nat>, other: map<nat, nat>)
    requires IsMatching(c, m) && Blocked(c, m, blocked)
    requires forall e :: 0 <= e < |c| ==> e in m.Values || Within(c[e], blocked)
    requires IsMatching(c, other)
    ensures |other| <= |m|
  {
    forall f | f in other && f !in blocked
      ensures other[f] in m.Values && FindingOf(m, other[f]) in m && FindingOf(m, other[f]) !in blocked
    {
      HeldOutside(c, m, blocked, other, f);
    }
    var phi := map f | f in other :: if f in blocked then f else FindingOf(m, other[f]);
    assert phi.Keys == other.Keys;
    forall f, g | f in phi && g in phi && f != g ensures phi[f] != phi[g] {
      SubstitutesDiffer(c, m, blocked, other, f, g, phi[f], phi[g]);
    }
    assert phi.Values <= m.Keys;
    InjectionBound(phi, m.Keys);
  }

  lemma {:induction false} ValuesCount(m: map<nat, nat>)
    requires Injective(m)
    ensures |m.Values| == |m|
    decreases |m|
  {
    if f :| f in m {
      var rest := m - {f};
      assert m.Keys == rest.Keys + {f};
      ValuesCount(rest);
      assert m.Values == rest.Values + {m[f]};
      assert m[f] !in rest.Values;
    }
  }

  /** A matching of `ne` expected with `nf` findings has full size exactly when it saturates a side. */
  lemma FullMatching(m: map<nat, nat>, ne: nat, nf: nat)
    requires Injective(m)
    requires forall f :: f in m ==> f < nf && m[f] < ne
    ensures |m| <= ne && |m| <= nf
    ensures |m| == ne <==> m.Values == Below(ne)
    ensures |m| == nf <==> m.Keys == Below(nf)
  {
    ValuesCount(m);
    SubsetCard(m.Values, Below(ne));
    SubsetCard(m.Keys, Below(nf));
  }

  /** Everything on both sides is paired. */
  ghost predicate Saturated(m: map<nat, nat>, ne: nat, nf: nat) {
    m.Values == Below(ne) && m.Keys == Below(nf)
  }

  lemma SaturatedSize(m: map<nat, nat>, ne: nat, nf: nat)
    requires Injective(m) && Saturated(m, ne, nf)
    ensures |m| == ne == nf
  {
    ValuesCount(m);
  }

  lemma LargeIsSaturated(m: map<nat, nat>, ne: nat, nf: nat)
    requires Injective(m) && forall f :: f in m ==> f < nf && m[f] < ne
    requires |m| >= ne && |m| >= nf
    ensures Saturated(m, ne, nf)
  {
    FullMatching(m, ne, nf);
  }

  /** A matching no smaller than one that pairs everything pairs everything too. */
  lemma NoSmallerIsSaturated(m: map<nat, nat>, p: map<nat, nat>, ne: nat, nf: nat)
    requires Injective(m) && forall f :: f in m ==> f < nf && m[f] < ne
    requires Injective(p) && Saturated(p, ne, nf) && |p| <= |m|
    ensures Saturated(m, ne, nf)
  {
    SaturatedSize(p, ne, nf);
    LargeIsSaturated(m, ne, nf);
  }

  lemma SubsetCard(a: set<nat>, b: set<nat>)
    requires a <= b
    ensures |a| <= |b|
    ensures |a| == |b| <==> a == b
  {
    assert b == a + (b - a);
  }
}
