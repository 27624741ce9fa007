/** Interval algebra on inclusive line ranges (line_ranges.py). */
module LineRanges {
  import opened Ordering

  datatype Range = Range(start: int, end: int)

  /** Some range of the list covers line `x`. */
  ghost predicate Has(ranges: seq<Range>, x: int) {
    exists i :: 0 <= i < |ranges| && ranges[i].start <= x <= ranges[i].end
  }

  /** A list as the program reads it: positive bounds, given in either order. */
  ghost predicate Means(ranges: seq<Range>, x: int) {
    exists i :: 0 <= i < |ranges| && ranges[i].start > 0 && ranges[i].end > 0
                && Low(ranges[i]) <= x <= High(ranges[i])
  }

  function Low(r: Range): int {
    if r.start <= r.end then r.start else r.end
  }

  function High(r: Range): int {
    if r.start <= r.end then r.end else r.start
  }

  ghost predicate Proper(ranges: seq<Range>) {
    forall i :: 0 <= i < |ranges| ==> 1 <= ranges[i].start <= ranges[i].end
  }

  ghost predicate SortedByStart(ranges: seq<Range>) {
    forall i, j :: 0 <= i < j < |ranges| ==> ranges[i].start <= ranges[j].start
  }

  /** Proper, sorted, and with at least one uncovered line between neighbours. */
  ghost predicate Normal(ranges: seq<Range>) {
    Proper(ranges) && forall i, j :: 0 <= i < j < |ranges| ==> ranges[i].end + 1 < ranges[j].start
  }

  // ------------------------------------------------------------------ the normal form is unique

  lemma Inside(ranges: seq<Range>, i: nat, x: int)
    requires i < |ranges| && ranges[i].start <= x <= ranges[i].end
    ensures Has(ranges, x)
  {
  }

  lemma FirstCovers(ranges: seq<Range>)
    requires ranges != []
    ensures forall x :: ranges[0].start <= x <= ranges[0].end ==> Has(ranges, x)
  {
  }

  lemma JustAfter(ranges: seq<Range>, i: nat)
    requires Normal(ranges) && i < |ranges|
    ensures !Has(ranges, ranges[i].end + 1)
  {
  }

  lemma SameFirst(a: seq<Range>, b: seq<Range>)
    requires Normal(a) && Normal(b) && a != [] && b != []
    requires forall x :: Has(a, x) <==> Has(b, x)
    ensures a[0] == b[0]
  {
    Inside(a, 0, a[0].start);
    Inside(b, 0, b[0].start);
    assert Has(b, a[0].start) && Has(a, b[0].start);
    assert a[0].start == b[0].start;
    JustAfter(a, 0);
    JustAfter(b, 0);
    assert !Has(b, a[0].end + 1) && !Has(a, b[0].end + 1);
    FirstCovers(a);
    FirstCovers(b);
  }

  lemma RestHas(ranges: seq<Range>, x: int)
    requires Normal(ranges) && ranges != []
    ensures Has(ranges[1..], x) <==> Has(ranges, x) && x > ranges[0].end
  {
    if Has(ranges[1..], x) {
      var i :| 0 <= i < |ranges[1..]| && ranges[1..][i].start <= x <= ranges[1..][i].end;
      assert ranges[i + 1].start <= x <= ranges[i + 1].end;
    }
    if Has(ranges, x) && x > ranges[0].end {
      var i :| 0 <= i < |ranges| && ranges[i].start <= x <= ranges[i].end;
      assert ranges[1..][i - 1] == ranges[i];
    }
  }

  lemma SameRest(a: seq<Range>, b: seq<Range>)
    requires Normal(a) && Normal(b) && a != [] && b != [] && a[0] == b[0]
    requires forall x :: Has(a, x) <==> Has(b, x)
    ensures Normal(a[1..]) && Normal(b[1..]) && forall x :: Has(a[1..], x) <==> Has(b[1..], x)
  {
    forall x ensures Has(a[1..], x) <==> Has(b[1..], x) {
      RestHas(a, x);
      RestHas(b, x);
    }
  }

  /** Two normal lists that cover the same lines are the same list. */
  lemma {:induction false} NormalUnique(a: seq<Range>, b: seq<Range>)
    requires Normal(a) && Normal(b)
    requires forall x :: Has(a, x) <==> Has(b, x)
    ensures a == b
    decreases |a|
  {
    if a == [] {
      if b != [] { Inside(b, 0, b[0].start); }
    } else if b == [] {
      Inside(a, 0, a[0].start);
    } else {
      SameFirst(a, b);
      SameRest(a, b);
      NormalUnique(a[1..], b[1..]);
      assert a == [a[0]] + a[1..] && b == [b[0]] + b[1..];
    }
  }

  // ------------------------------------------------------------------ counting lines

  function RangeCount(r: Range): int {
    if r.end - r.start + 1 > 0 then r.end - r.start + 1 else 0
  }

  function LineRangeCount(ranges: seq<Range>): int {
    if ranges == [] then 0
    else LineRangeCount(ranges[..|ranges| - 1]) + RangeCount(ranges[|ranges| - 1])
  }

  ghost function Between(start: int, end: int): (s: set<int>)
    ensures forall x :: x in s <==> start <= x <= end
    ensures |s| == if end < start then 0 else end - start + 1
    decreases end - start
  {
    if end < start then {} else Between(start, end - 1) + {end}
  }

  /** The lines of a list as a set. */
  ghost function Lines(ranges: seq<Range>): (s: set<int>)
    ensures forall x :: x in s <==> Has(ranges, x)
  {
    if ranges == [] then {}
    else
      var init, last := ranges[..|ranges| - 1], ranges[|ranges| - 1];
      HasSnoc(init, last);
      assert ranges == init + [last];
      Lines(init) + Between(last.start, last.end)
  }

  lemma HasSnoc(init: seq<Range>, last: Range)
    ensures forall x :: Has(init + [last], x) <==> Has(init, x) || last.start <= x <= last.end
  {
    forall x ensures Has(init + [last], x) <==> Has(init, x) || last.start <= x <= last.end {
      if Has(init, x) {
        var i :| 0 <= i < |init| && init[i].start <= x <= init[i].end;
        assert (init + [last])[i] == init[i];
      }
      assert (init + [last])[|init|] == last;
    }
  }

  /** In normal form the count is the number of covered lines. */
  lemma {:induction false} CountIsCardinality(ranges: seq<Range>)
    requires Normal(ranges)
    ensures LineRangeCount(ranges) == |Lines(ranges)|
    decreases |ranges|
  {
    if ranges != [] {
      var init, last := ranges[..|ranges| - 1], ranges[|ranges| - 1];
      CountIsCardinality(init);
      assert Lines(init) !! Between(last.start, last.end);
    }
  }

  lemma CardinalityBounds(a: set<int>, b: set<int>)
    ensures |a + b| <= |a| + |b|
    ensures a * b != {} ==> |a + b| < |a| + |b|
  {
    assert |a + b| == |a| + |b| - |a * b|;
  }

  /** Overlapping ranges are counted more than once. */
  lemma {:induction false} CountNeverUnder(ranges: seq<Range>)
    ensures LineRangeCount(ranges) >= |Lines(ranges)|
    decreases |ranges|
  {
    if ranges != [] {
      var init, last := ranges[..|ranges| - 1], ranges[|ranges| - 1];
      CountNeverUnder(init);
      CardinalityBounds(Lines(init), Between(last.start, last.end));
    }
  }

  // ------------------------------------------------------------------ merging

  predicate Before(a: Range, b: Range) {
    a.start < b.start || (a.start == b.start && a.end <= b.end)
  }

  lemma BeforeIsTotal()
    ensures TotalPreorder(Before) && Antisymmetric(Before)
  {
  }

  /** The ranges with positive bounds, low end first. */
  function Oriented(ranges: seq<Range>): (r: seq<Range>)
    ensures Proper(r)
  {
    if ranges == [] then []
    else
      var init, last := Oriented(ranges[..|ranges| - 1]), ranges[|ranges| - 1];
      if last.start > 0 && last.end > 0 then init + [Range(Low(last), High(last))] else init
  }

  lemma {:induction false} OrientedMeaning(ranges: seq<Range>)
    ensures forall x :: Has(Oriented(ranges), x) <==> Means(ranges, x)
    decreases |ranges|
  {
    if ranges != [] {
      var init, last := ranges[..|ranges| - 1], ranges[|ranges| - 1];
      OrientedMeaning(init);
      HasSnoc(Oriented(init), Range(Low(last), High(last)));
      assert ranges == init + [last];
      forall x ensures Has(Oriented(ranges), x) <==> Means(ranges, x) {
        assert Means(init, x) ==> Means(ranges, x) by {
          if i :| 0 <= i < |init| && init[i].start > 0 && init[i].end > 0 && Low(init[i]) <= x <= High(init[i]) {
            assert ranges[i] == init[i];
          }
        }
        if Means(ranges, x) {
          var i :| 0 <= i < |ranges| && ranges[i].start > 0 && ranges[i].end > 0
            && Low(ranges[i]) <= x <= High(ranges[i]);
          assert i < |init| ==> init[i] == ranges[i] && Means(init, x);
        }
      }
    }
  }

  lemma SortKeepsLines(ranges: seq<Range>)
    requires Proper(ranges)
    ensures Proper(StableSort(Before, ranges)) && SortedByStart(StableSort(Before, ranges))
    ensures forall x :: Has(StableSort(Before, ranges), x) <==> Has(ranges, x)
    ensures |StableSort(Before, ranges)| == |ranges|
  {
    BeforeIsTotal();
    SortProperties(Before, ranges);
    var s := StableSort(Before, ranges);
    SameMembersCover(ranges, s);
    SameMembersCover(s, ranges);
    forall i | 0 <= i < |s| ensures s[i] in ranges {
      assert s[i] in multiset(s) && s[i] in multiset(ranges);
    }
  }

  lemma SameMembersCover(a: seq<Range>, b: seq<Range>)
    requires multiset(a) == multiset(b)
    ensures forall x :: Has(a, x) ==> Has(b, x)
  {
    forall x | Has(a, x) ensures Has(b, x) {
      var i :| 0 <= i < |a| && a[i].start <= x <= a[i].end;
      assert a[i] in multiset(a) && a[i] in multiset(b);
      var j :| 0 <= j < |b| && b[j] == a[i];
    }
  }

  /** Widens the last range or appends the next one. */
  function MergeNext(merged: seq<Range>, next: Range): seq<Range>
    requires merged != []
  {
    var n := |merged| - 1;
    if next.start <= merged[n].end + 1 then
      merged[n := Range(merged[n].start, if merged[n].end >= next.end then merged[n].end else next.end)]
    else merged + [next]
  }

  /** One step of the merge keeps the normal form and adds the lines of the next range. */
  lemma MergeStep(merged: seq<Range>, next: Range)
    requires Normal(merged) && merged != []
    requires 1 <= next.start <= next.end && merged[|merged| - 1].start <= next.start
    ensures var after := MergeNext(merged, next);
            && Normal(after) && after != [] && after[|after| - 1].start <= next.start
            && forall x :: Has(after, x) <==> Has(merged, x) || next.start <= x <= next.end
  {
    var n := |merged| - 1;
    var init, last := merged[..n], merged[n];
    var widened := Range(last.start, if last.end >= next.end then last.end else next.end);
    HasSnoc(init, last);
    HasSnoc(init, widened);
    HasSnoc(merged, next);
    assert merged == init + [last] && merged[n := widened] == init + [widened];
  }

  ghost predicate MergedSoFar(ordered: seq<Range>, n: nat, merged: seq<Range>)
    requires 0 < n <= |ordered|
  {
    && merged != [] && Normal(merged) && merged[|merged| - 1].start <= ordered[n - 1].start
    && forall x :: Has(merged, x) <==> Has(ordered[..n], x)
  }

  lemma HasNext(ranges: seq<Range>, n: nat)
    requires n < |ranges|
    ensures forall x :: Has(ranges[..n + 1], x) <==> Has(ranges[..n], x) || ranges[n].start <= x <= ranges[n].end
  {
    HasSnoc(ranges[..n], ranges[n]);
    assert ranges[..n + 1] == ranges[..n] + [ranges[n]];
  }

  lemma MergedFirst(ordered: seq<Range>)
    requires Proper(ordered) && ordered != []
    ensures MergedSoFar(ordered, 1, [ordered[0]])
  {
    assert ordered[..1] == [ordered[0]];
  }

  lemma MergedNext(ordered: seq<Range>, n: nat, merged: seq<Range>)
    requires 0 < n < |ordered| && MergedSoFar(ordered, n, merged)
    requires Proper(ordered) && SortedByStart(ordered)
    ensures MergedSoFar(ordered, n + 1, MergeNext(merged, ordered[n]))
  {
    MergeStep(merged, ordered[n]);
    HasNext(ordered, n);
  }

  lemma MergedAll(ordered: seq<Range>, merged: seq<Range>)
    requires ordered != [] && MergedSoFar(ordered, |ordered|, merged)
    ensures Normal(merged) && forall x :: Has(merged, x) <==> Has(ordered, x)
  {
    assert ordered[..|ordered|] == ordered;
  }

  /** The loop over the ordered ranges. */
  method MergeOrdered(ordered: seq<Range>) returns (merged: seq<Range>)
    requires Proper(ordered) && SortedByStart(ordered) && ordered != []
    ensures Normal(merged) && forall x :: Has(merged, x) <==> Has(ordered, x)
  {
    merged := [ordered[0]];
    MergedFirst(ordered);
    for i := 1 to |ordered|
      invariant MergedSoFar(ordered, i, merged)
    {
      var next, n := ordered[i], |merged| - 1;
      MergedNext(ordered, i, merged);
      if next.start <= merged[n].end + 1 {
        merged := merged[n := Range(merged[n].start, if merged[n].end >= next.end then merged[n].end else next.end)];
      } else {
        merged := merged + [next];
      }
    }
    MergedAll(ordered, merged);
  }

  method MergeLineRanges(ranges: seq<Range>) returns (merged: seq<Range>)
    ensures Normal(merged)
    ensures forall x :: Has(merged, x) <==> Means(ranges, x)
  {
    var ordered := StableSort(Before, Oriented(ranges));
    OrientedMeaning(ranges);
    SortKeepsLines(Oriented(ranges));
    if ordered == [] {
      return [];
    }
    merged := MergeOrdered(ordered);
  }

  lemma ProperMeaning(ranges: seq<Range>)
    requires Proper(ranges)
    ensures forall x :: Means(ranges, x) <==> Has(ranges, x)
  {
  }

  // ------------------------------------------------------------------ subtraction

  /** What is left of `fragment` outside `covered`, low part first. */
  function Cut(fragment: Range, covered: Range): seq<Range> {
    if covered.end < fragment.start || covered.start > fragment.end then [fragment]
    else
      (if fragment.start < covered.start then [Range(fragment.start, covered.start - 1)] else [])
      + (if covered.end < fragment.end then [Range(covered.end + 1, fragment.end)] else [])
  }

  /** Cutting is exact even when the covered range is empty or inverted. */
  lemma CutMeaning(fragment: Range, covered: Range)
    requires 1 <= fragment.start <= fragment.end
    ensures Proper(Cut(fragment, covered))
    ensures forall x :: Has(Cut(fragment, covered), x) <==>
      fragment.start <= x <= fragment.end && !(covered.start <= x <= covered.end)
  {
    var cut := Cut(fragment, covered);
    forall x ensures Has(cut, x) <==> fragment.start <= x <= fragment.end && !(covered.start <= x <= covered.end) {
      if fragment.start <= x <= fragment.end && !(covered.start <= x <= covered.end) {
        assert |cut| > 0;
        if cut[0].start <= x <= cut[0].end {
          assert Has(cut, x);
        } else {
          assert cut[1].start <= x <= cut[1].end;
        }
      }
    }
  }

  lemma HasConcat(a: seq<Range>, b: seq<Range>)
    ensures forall x :: Has(a + b, x) <==> Has(a, x) || Has(b, x)
  {
    forall x ensures Has(a + b, x) <==> Has(a, x) || Has(b, x) {
      if Has(a, x) {
        var i :| 0 <= i < |a| && a[i].start <= x <= a[i].end;
        assert (a + b)[i] == a[i];
      }
      if Has(b, x) {
        var i :| 0 <= i < |b| && b[i].start <= x <= b[i].end;
        assert (a + b)[|a| + i] == b[i];
      }
    }
  }

  method CutAll(fragments: seq<Range>, covered: Range) returns (next: seq<Range>)
    ensures Proper(fragments) ==> Proper(next)
    ensures Proper(fragments) ==> forall x ::
      Has(next, x) <==> Has(fragments, x) && !(covered.start <= x <= covered.end)
  {
    next := [];
    for i := 0 to |fragments|
      invariant Proper(fragments) ==> Proper(next)
      invariant Proper(fragments) ==>
        forall x :: Has(next, x) <==> Has(fragments[..i], x) && !(covered.start <= x <= covered.end)
    {
      var fragment := fragments[i];
      if Proper(fragments) {
        CutMeaning(fragment, covered);
      }
      HasConcat(next, Cut(fragment, covered));
      HasSnoc(fragments[..i], fragment);
      assert fragments[..i + 1] == fragments[..i] + [fragment];
      next := next + Cut(fragment, covered);
    }
    assert fragments[..|fragments|] == fragments;
  }

  lemma HasPrefix(ranges: seq<Range>, n: nat, x: int)
    requires n <= |ranges| && Has(ranges[..n], x)
    ensures Has(ranges, x)
  {
    var i :| 0 <= i < n && ranges[..n][i].start <= x <= ranges[..n][i].end;
    assert ranges[i] == ranges[..n][i];
  }

  method SubtractFrom(range: Range, covered: seq<Range>) returns (fragments: seq<Range>)
    ensures 1 <= range.start <= range.end ==> Proper(fragments)
    ensures 1 <= range.start <= range.end ==> forall x ::
      Has(fragments, x) <==> range.start <= x <= range.end && !Has(covered, x)
  {
    fragments := [range];
    HasSnoc([], range);
    assert fragments == [] + [range];
    ghost var proper := 1 <= range.start <= range.end;
    for k := 0 to |covered|
      invariant proper ==> Proper(fragments)
      invariant proper ==> forall x :: Has(fragments, x) <==> range.start <= x <= range.end && !Has(covered[..k], x)
    {
      HasSnoc(covered[..k], covered[k]);
      assert covered[..k + 1] == covered[..k] + [covered[k]];
      fragments := CutAll(fragments, covered[k]);
      if fragments == [] {
        forall x | proper && range.start <= x <= range.end ensures Has(covered, x) {
          assert Has(covered[..k + 1], x);
          HasPrefix(covered, k + 1, x);
        }
        return;
      }
    }
    assert covered[..|covered|] == covered;
  }

  /** Always in normal form; for proper ranges the exact set difference, whatever the covered ranges are. */
  method SubtractLineRanges(ranges: seq<Range>, covered: seq<Range>) returns (r: seq<Range>)
    ensures Normal(r)
    ensures Proper(ranges) ==> forall x :: Has(r, x) <==> Has(ranges, x) && !Has(covered, x)
  {
    var remaining: seq<Range> := [];
    for i := 0 to |ranges|
      invariant Proper(ranges) ==> Proper(remaining)
      invariant Proper(ranges) ==> forall x :: Has(remaining, x) <==> Has(ranges[..i], x) && !Has(covered, x)
    {
      var fragments := SubtractFrom(ranges[i], covered);
      HasConcat(remaining, fragments);
      HasSnoc(ranges[..i], ranges[i]);
      assert ranges[..i + 1] == ranges[..i] + [ranges[i]];
      remaining := remaining + fragments;
    }
    assert ranges[..|ranges|] == ranges;
    r := MergeLineRanges(remaining);
    if Proper(ranges) {
      ProperMeaning(remaining);
    }
  }
}
