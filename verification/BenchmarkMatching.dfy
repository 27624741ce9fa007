/**
 The benchmark's report of a matching (`match_expected_findings` in benchmark/matching.py) and the
 check it feeds: everything expected is found and nothing is left over.
 */
module BenchmarkMatching {
  import opened Collections
  import opened Matching
  import opened Wrappers

  datatype ExpectedFindingResult<E, F> = ExpectedFindingResult(expected: E, finding: Option<F>)

  /** A one-to-one pairing of findings with expected findings that respects the match relation. */
  ghost predicate IsPairing<E, F>(expected: seq<E>, findings: seq<F>, matches: (E, F) -> bool, m: map<nat, nat>) {
    && (forall f :: f in m ==> f < |findings| && m[f] < |expected| && matches(expected[m[f]], findings[f]))
    && Injective(m)
  }

  ghost predicate IsPerfectPairing<E, F>(expected: seq<E>, findings: seq<F>, matches: (E, F) -> bool,
                                         m: map<nat, nat>) {
    && IsPairing(expected, findings, matches, m)
    && Saturated(m, |expected|, |findings|)
  }

  ghost predicate IsMaximumPairing<E, F>(expected: seq<E>, findings: seq<F>, matches: (E, F) -> bool,
                                         m: map<nat, nat>) {
    && IsPairing(expected, findings, matches, m)
    && (forall other :: IsPairing(expected, findings, matches, other) ==> |other| <= |m|)
  }

  /** `results` and `unused` say what the assignment `m` says. */
  ghost predicate Reports<E, F>(expected: seq<E>, findings: seq<F>, m: map<nat, nat>,
                                results: seq<ExpectedFindingResult<E, F>>, unused: seq<F>) {
    && |results| == |expected|
    && (forall e :: 0 <= e < |results| ==>
          && results[e].expected == expected[e]
          && match results[e].finding
             case None => e !in m.Values
             case Some(f) => exists i: nat :: i in m && i < |findings| && m[i] == e && f == findings[i])
    && unused == Unused(findings, m, |findings|)
  }

  ghost function CandidateCount<E, F>(expected: E, findings: seq<F>, matches: (E, F) -> bool): nat {
    |set f: nat | f < |findings| && matches(expected, findings[f])|
  }

  /** Fewer candidates first, then the earlier one. */
  ghost predicate Sooner<E, F>(expected: seq<E>, findings: seq<F>, matches: (E, F) -> bool, a: nat, b: nat) {
    && a < |expected| && b < |expected|
    && var x, y := CandidateCount(expected[a], findings, matches), CandidateCount(expected[b], findings, matches);
       x < y || (x == y && a < b)
  }

  /** What is left unmatched cannot be paired together with all that is matched and comes sooner. */
  ghost predicate ServedInTurn<E, F>(expected: seq<E>, findings: seq<F>, matches: (E, F) -> bool, m: map<nat, nat>) {
    forall e: nat, other :: e < |expected| && e !in m.Values && IsPairing(expected, findings, matches, other) ==>
      !((set x | x in m.Values && Sooner(expected, findings, matches, x, e)) + {e} <= other.Values)
  }

  function Unused<F>(findings: seq<F>, m: map<nat, nat>, n: nat): seq<F>
    requires n <= |findings|
  {
    if n == 0 then []
    else Unused(findings, m, n - 1) + if n - 1 in m then [] else [findings[n - 1]]
  }

  lemma {:induction false} NothingUnused<F>(findings: seq<F>, m: map<nat, nat>, n: nat)
    requires n <= |findings|
    ensures Unused(findings, m, n) == [] <==> forall f: nat :: f < n ==> f in m
  {
    if n > 0 { NothingUnused(findings, m, n - 1); }
  }

  /** What is left over is what is not matched, each once and in order. */
  lemma {:induction false} UnusedMeaning<F>(findings: seq<F>, m: map<nat, nat>, n: nat, f: nat)
    requires f < n <= |findings|
    ensures |Unused(findings, m, f)| <= |Unused(findings, m, n)|
    ensures f !in m ==> |Unused(findings, m, f)| < |Unused(findings, m, n)|
                        && Unused(findings, m, n)[|Unused(findings, m, f)|] == findings[f]
    decreases n
  {
    if f < n - 1 { UnusedMeaning(findings, m, n - 1, f); }
  }

  lemma {:induction false} UnusedCount<F>(findings: seq<F>, m: map<nat, nat>, n: nat)
    requires n <= |findings|
    ensures |Unused(findings, m, n)| + |set f | f in m && f < n| == n
  {
    if n > 0 {
      UnusedCount(findings, m, n - 1);
      var below, all := set f | f in m && f < n - 1, set f | f in m && f < n;
      assert all == if n - 1 in m then below + {n - 1} else below;
    } else {
      assert (set f | f in m && f < 0) == {};
    }
  }

  ghost predicate AreCandidates<E, F>(expected: seq<E>, findings: seq<F>, matches: (E, F) -> bool, c: seq<seq<nat>>) {
    && |c| <= |expected|
    && forall e :: 0 <= e < |c| ==> AreEdgesOf(expected[e], findings, matches, c[e])
  }

  ghost predicate AreEdgesOf<E, F>(expected: E, findings: seq<F>, matches: (E, F) -> bool, indices: seq<nat>) {
    forall f: nat :: f in indices <==> f < |findings| && matches(expected, findings[f])
  }

  lemma CandidatesAreEdges<E, F>(expected: seq<E>, findings: seq<F>, matches: (E, F) -> bool,
                                 c: seq<seq<nat>>, m: map<nat, nat>)
    requires |c| == |expected| && AreCandidates(expected, findings, matches, c)
    ensures IsMatching(c, m) <==> IsPairing(expected, findings, matches, m)
  {
    assert forall f :: f in m && m[f] < |c| ==> AreEdgesOf(expected[m[f]], findings, matches, c[m[f]]);
  }

  /** The benchmark passes its finding check exactly when a perfect pairing exists. */
  lemma CheckPassesIffPerfect<E, F>(expected: seq<E>, findings: seq<F>, matches: (E, F) -> bool, m: map<nat, nat>,
                                    results: seq<ExpectedFindingResult<E, F>>, unused: seq<F>)
    requires IsMaximumPairing(expected, findings, matches, m)
    requires Reports(expected, findings, m, results, unused)
    ensures (forall e :: 0 <= e < |results| ==> results[e].finding.Some?) && unused == []
            <==> exists p :: IsPerfectPairing(expected, findings, matches, p)
  {
    ReportedIfSaturated(expected, findings, m, results, unused);
    if Saturated(m, |expected|, |findings|) {
      assert IsPerfectPairing(expected, findings, matches, m);
    }
    if p :| IsPerfectPairing(expected, findings, matches, p) {
      NoSmallerIsSaturated(m, p, |expected|, |findings|);
    }
  }

  lemma ReportedIfSaturated<E, F>(expected: seq<E>, findings: seq<F>, m: map<nat, nat>,
                                  results: seq<ExpectedFindingResult<E, F>>, unused: seq<F>)
    requires forall f :: f in m ==> f < |findings| && m[f] < |expected|
    requires Reports(expected, findings, m, results, unused)
    ensures (forall e :: 0 <= e < |results| ==> results[e].finding.Some?) && unused == []
            <==> Saturated(m, |expected|, |findings|)
  {
    AllReported(expected, findings, m, results, unused);
    NothingUnused(findings, m, |findings|);
    assert m.Keys <= Below(|findings|);
    assert unused == [] <==> m.Keys == Below(|findings|);
  }

  lemma AllReported<E, F>(expected: seq<E>, findings: seq<F>, m: map<nat, nat>,
                          results: seq<ExpectedFindingResult<E, F>>, unused: seq<F>)
    requires forall f :: f in m ==> f < |findings| && m[f] < |expected|
    requires Reports(expected, findings, m, results, unused)
    ensures (forall e :: 0 <= e < |results| ==> results[e].finding.Some?) <==> m.Values == Below(|expected|)
  {
    assert m.Values <= Below(|expected|);
    forall e: nat | e < |results| ensures results[e].finding.Some? <==> e in m.Values {
      match results[e].finding
      case None =>
      case Some(f) =>
        var i: nat :| i in m && i < |findings| && m[i] == e && f == findings[i];
        assert e in m.Values;
    }
  }

  method CandidateIndices<E, F>(expected: E, findings: seq<F>, matches: (E, F) -> bool) returns (indices: seq<nat>)
    ensures AreEdgesOf(expected, findings, matches, indices)
    ensures forall i, j :: 0 <= i < j < |indices| ==> indices[i] < indices[j]
  {
    indices := [];
    for f := 0 to |findings|
      invariant forall i :: 0 <= i < |indices| ==> indices[i] < f
      invariant forall g: nat :: g in indices <==> g < f && matches(expected, findings[g])
      invariant forall i, j :: 0 <= i < j < |indices| ==> indices[i] < indices[j]
    {
      if matches(expected, findings[f]) {
        indices := indices + [f];
      }
    }
  }

  /** Indices of `c` by ascending (candidate count, index). */
  predicate Before(c: seq<seq<nat>>, a: nat, b: nat) {
    a < |c| && b < |c| && (|c[a]| < |c[b]| || (|c[a]| == |c[b]| && a < b))
  }

  method ExpectedOrder(c: seq<seq<nat>>) returns (order: seq<nat>)
    ensures forall e: nat :: e in order <==> e < |c|
    ensures forall i, j :: 0 <= i < j < |order| ==> Before(c, order[i], order[j])
  {
    order := [];
    for e := 0 to |c|
      invariant forall k: nat :: k in order <==> k < e
      invariant forall i, j :: 0 <= i < j < |order| ==> Before(c, order[i], order[j])
    {
      var at := |order|;
      while at > 0 && Before(c, e, order[at - 1])
        invariant 0 <= at <= |order|
        invariant forall i :: at <= i < |order| ==> Before(c, e, order[i])
      {
        at := at - 1;
      }
      InsertedAt(c, order, e, at);
      order := order[..at] + [e] + order[at..];
    }
  }

  /** Inserting before everything it precedes keeps the order. */
  lemma InsertedAt(c: seq<seq<nat>>, order: seq<nat>, e: nat, at: nat)
    requires at <= |order| && e < |c| && forall k: nat :: k in order <==> k < e
    requires forall i, j :: 0 <= i < j < |order| ==> Before(c, order[i], order[j])
    requires forall i :: at <= i < |order| ==> Before(c, e, order[i])
    requires at > 0 ==> !Before(c, e, order[at - 1])
    ensures var next := order[..at] + [e] + order[at..];
            && (forall k: nat :: k in next <==> k < e + 1)
            && (forall i, j :: 0 <= i < j < |next| ==> Before(c, next[i], next[j]))
  {
    var next := order[..at] + [e] + order[at..];
    assert forall k: nat :: k in next <==> k in order || k == e;
    forall i | 0 <= i < at ensures Before(c, order[i], e) {
      assert order[i] in order && order[at - 1] in order;
      if i < at - 1 { assert Before(c, order[i], order[at - 1]); }
    }
    forall i, j | 0 <= i < j < |next| ensures Before(c, next[i], next[j]) {
      assert next[i] == if i < at then order[i] else if i == at then e else order[i - 1];
      assert next[j] == if j < at then order[j] else if j == at then e else order[j - 1];
    }
  }

  lemma CandidatesCounted<E, F>(expected: E, findings: seq<F>, matches: (E, F) -> bool, indices: seq<nat>)
    requires AreEdgesOf(expected, findings, matches, indices)
    requires forall i, j :: 0 <= i < j < |indices| ==> indices[i] < indices[j]
    ensures |indices| == CandidateCount(expected, findings, matches)
  {
    ImageCount(indices, |indices|);
    var image := set i | 0 <= i < |indices| :: indices[i];
    assert image == set f: nat | f < |findings| && matches(expected, findings[f]) by {
      assert forall f :: f in image <==> f in indices;
    }
  }

  /** The candidate lists have the lengths that decide about the order. */
  ghost predicate Counted<E, F>(expected: seq<E>, findings: seq<F>, matches: (E, F) -> bool, c: seq<seq<nat>>) {
    |c| <= |expected| && forall e :: 0 <= e < |c| ==> |c[e]| == CandidateCount(expected[e], findings, matches)
  }

  /** Matched in the order of the searches means served in turn. */
  lemma GreedyServes<E, F>(expected: seq<E>, findings: seq<F>, matches: (E, F) -> bool, c: seq<seq<nat>>,
                           order: seq<nat>, m: map<nat, nat>)
    requires |c| == |expected| && AreCandidates(expected, findings, matches, c)
    requires Counted(expected, findings, matches, c) && Greedy(c, m, order)
    requires forall e: nat :: e in order <==> e < |c|
    requires forall i, j :: 0 <= i < j < |order| ==> Before(c, order[i], order[j])
    ensures ServedInTurn(expected, findings, matches, m)
  {
    forall e: nat, other | e < |expected| && e !in m.Values && IsPairing(expected, findings, matches, other)
      ensures !((set x | x in m.Values && Sooner(expected, findings, matches, x, e)) + {e} <= other.Values)
    {
      assert e in order;
      var i :| 0 <= i < |order| && order[i] == e;
      CandidatesAreEdges(expected, findings, matches, c, other);
      assert Uncoverable(c, MatchedBefore(m, order, i) + {e});
      assert forall x :: x in MatchedBefore(m, order, i) ==>
        x in m.Values && Sooner(expected, findings, matches, x, e);
    }
  }

  /** `match_expected_findings` for every match relation: the assignment it reports is a pairing of
      maximum size, which leaves an expected finding out only if it cannot be paired together with those
      that come sooner. All are matched with none left over exactly when a perfect pairing exists. */
  method MatchExpectedFindings<E, F>(expected: seq<E>, findings: seq<F>, matches: (E, F) -> bool)
    returns (results: seq<ExpectedFindingResult<E, F>>, unused: seq<F>)
    ensures exists m ::
      && IsMaximumPairing(expected, findings, matches, m) && Reports(expected, findings, m, results, unused)
      && ServedInTurn(expected, findings, matches, m)
    ensures (forall e :: 0 <= e < |results| ==> results[e].finding.Some?) && unused == []
            <==> exists p :: IsPerfectPairing(expected, findings, matches, p)
  {
    var candidates: seq<seq<nat>> := [];
    for e := 0 to |expected|
      invariant |candidates| == e
      invariant AreCandidates(expected, findings, matches, candidates)
      invariant Counted(expected, findings, matches, candidates)
    {
      var indices := CandidateIndices(expected[e], findings, matches);
      CandidatesCounted(expected[e], findings, matches, indices);
      candidates := candidates + [indices];
    }
    var order := ExpectedOrder(candidates);
    assert forall i :: 0 <= i < |order| ==> order[i] in order;
    var matcher := new Matcher(candidates, |findings|);
    ghost var blocked := matcher.AssignAll(order);
    var m := matcher.matchedFindingToExpected;
    CandidatesAreEdges(expected, findings, matches, candidates, m);
    forall other | IsPairing(expected, findings, matches, other) ensures |other| <= |m| {
      CandidatesAreEdges(expected, findings, matches, candidates, other);
      BlockedMeansMaximum(candidates, m, blocked, other);
    }
    GreedyServes(expected, findings, matches, candidates, order, m);
    results, unused := ReportMatches(expected, findings, m);
    CheckPassesIffPerfect(expected, findings, matches, m, results, unused);
  }

  method ReportMatches<E, F>(expected: seq<E>, findings: seq<F>, m: map<nat, nat>)
    returns (results: seq<ExpectedFindingResult<E, F>>, unused: seq<F>)
    requires Injective(m) && forall f :: f in m ==> f < |findings|
    ensures Reports(expected, findings, m, results, unused)
  {
    var matchedExpectedToFinding: map<nat, nat> := map[];
    unused := [];
    for f := 0 to |findings|
      invariant forall e :: e in matchedExpectedToFinding ==>
        var i := matchedExpectedToFinding[e]; i < f && i in m && m[i] == e
      invariant forall i: nat :: i < f && i in m ==> m[i] in matchedExpectedToFinding
      invariant unused == Unused(findings, m, f)
    {
      if f in m {
        matchedExpectedToFinding := matchedExpectedToFinding[m[f] := f];
      } else {
        unused := unused + [findings[f]];
      }
    }
    results := [];
    for e := 0 to |expected|
      invariant |results| == e
      invariant forall k :: 0 <= k < e ==>
        && results[k].expected == expected[k]
        && match results[k].finding
           case None => k !in m.Values
           case Some(f) => exists i: nat :: i in m && i < |findings| && m[i] == k && f == findings[i]
    {
      var found := if e in matchedExpectedToFinding then Some(findings[matchedExpectedToFinding[e]]) else None;
      results := results + [ExpectedFindingResult(expected[e], found)];
    }
  }
}
