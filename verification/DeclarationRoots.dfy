/**
 Choosing the supplemental declaration roots of a focused program: a bounded list kept sorted by
 binary insertion while the roots stream by (`selectSupplementalDeclarationRoots` in
 analyzer-runtimes/typescript/src/program.ts).
 */
module DeclarationRoots {
  import opened Collections
  import opened Ordering

  datatype Candidate = Candidate(fileName: string, priority: int, lowerKey: string, resolvedKey: string)

  predicate LexLess(a: string, b: string) {
    !LexLe(b, a)
  }

  /** Negative, zero or positive, as a comparator answers. */
  function Compare(left: Candidate, right: Candidate): int {
    if left.priority != right.priority then left.priority - right.priority
    else if LexLess(left.lowerKey, right.lowerKey) then -1
    else if LexLess(right.lowerKey, left.lowerKey) then 1
    else if LexLess(left.resolvedKey, right.resolvedKey) then -1
    else if LexLess(right.resolvedKey, left.resolvedKey) then 1
    else 0
  }

  predicate NotAfter(a: Candidate, b: Candidate) {
    Compare(a, b) <= 0
  }

  lemma CompareMeaning(a: Candidate, b: Candidate)
    ensures NotAfter(a, b) <==>
      || a.priority < b.priority
      || (a.priority == b.priority && a.lowerKey != b.lowerKey && LexLe(a.lowerKey, b.lowerKey))
      || (a.priority == b.priority && a.lowerKey == b.lowerKey && LexLe(a.resolvedKey, b.resolvedKey))
    ensures Compare(a, b) < 0 <==> !NotAfter(b, a)
  {
    LexTotal(a.lowerKey, b.lowerKey);
    LexTotal(a.resolvedKey, b.resolvedKey);
    LexTotal(a.lowerKey, a.lowerKey);
  }

  lemma CandidateOrder()
    ensures TotalPreorder(NotAfter)
  {
    forall a, b ensures NotAfter(a, b) || NotAfter(b, a) {
      CompareMeaning(a, b);
      CompareMeaning(b, a);
    }
    forall a, b, c | NotAfter(a, b) && NotAfter(b, c) ensures NotAfter(a, c) {
      CandidateTransitive(a, b, c);
    }
  }

  lemma CandidateTransitive(a: Candidate, b: Candidate, c: Candidate)
    requires NotAfter(a, b) && NotAfter(b, c)
    ensures NotAfter(a, c)
  {
    CompareMeaning(a, b);
    CompareMeaning(b, c);
    CompareMeaning(a, c);
    if a.priority == b.priority == c.priority {
      if LexLe(a.lowerKey, b.lowerKey) && LexLe(b.lowerKey, c.lowerKey) {
        LexTransitive(a.lowerKey, b.lowerKey, c.lowerKey);
        LexTotal(a.lowerKey, b.lowerKey);
        LexTotal(b.lowerKey, c.lowerKey);
      }
      if LexLe(a.resolvedKey, b.resolvedKey) && LexLe(b.resolvedKey, c.resolvedKey) {
        LexTransitive(a.resolvedKey, b.resolvedKey, c.resolvedKey);
      }
      LexTotal(a.lowerKey, a.lowerKey);
    }
  }

  // ------------------------------------------------------------------ bounded insertion

  /** Insertion puts the new element between those not after it and those after it. */
  lemma {:induction false} InsertAt(s: seq<Candidate>, x: Candidate, p: nat)
    requires p <= |s|
    requires forall i :: 0 <= i < p ==> NotAfter(s[i], x)
    requires forall i :: p <= i < |s| ==> !NotAfter(s[i], x)
    ensures Insert(NotAfter, s, x) == s[..p] + [x] + s[p..]
    decreases |s|
  {
    if p < |s| {
      var n := |s| - 1;
      InsertAt(s[..n], x, p);
      assert s[..n][..p] == s[..p] && s[p..] == s[..n][p..] + [s[n]];
    } else {
      assert s[..p] == s && s[p..] == [];
      if |s| > 0 { assert NotAfter(s[|s| - 1], x); }
    }
  }

  /** Keeping only the first `k` before inserting changes nothing among the first `k` after. */
  lemma {:induction false} TakeOfInsert(s: seq<Candidate>, x: Candidate, k: nat)
    requires Sorted(NotAfter, s)
    ensures Take(k, Insert(NotAfter, s, x)) == Take(k, Insert(NotAfter, Take(k, s), x))
    ensures |s| >= k > 0 && NotAfter(s[k - 1], x) ==> Take(k, Insert(NotAfter, s, x)) == Take(k, s)
  {
    CandidateOrder();
    var p := CountNotAfter(s, x);
    InsertAt(s, x, p);
    if |s| > k {
      var q := if p <= k then p else k;
      InsertAt(s[..k], x, q);
      assert p <= k ==> s[..k][..p] == s[..p];
      assert p > k ==> s[..k][..k] == s[..k];
    }
  }

  ghost function CountNotAfter(s: seq<Candidate>, x: Candidate): (p: nat)
    requires Sorted(NotAfter, s)
    ensures p <= |s|
    ensures forall i :: 0 <= i < p ==> NotAfter(s[i], x)
    ensures forall i :: p <= i < |s| ==> !NotAfter(s[i], x)
  {
    if s == [] then 0
    else if NotAfter(s[|s| - 1], x) then
      assert forall i :: 0 <= i < |s| ==> NotAfter(s[i], x) by {
        forall i | 0 <= i < |s| - 1 ensures NotAfter(s[i], x) {
          CandidateTransitive(s[i], s[|s| - 1], x);
        }
      }
      |s|
    else CountNotAfter(s[..|s| - 1], x)
  }

  method InsertCandidate(selected: seq<Candidate>, candidate: Candidate) returns (inserted: seq<Candidate>)
    requires Sorted(NotAfter, selected)
    ensures inserted == Insert(NotAfter, selected, candidate)
  {
    var low, high := 0, |selected|;
    while low < high
      invariant 0 <= low <= high <= |selected|
      invariant forall i :: 0 <= i < low ==> NotAfter(selected[i], candidate)
      invariant forall i :: high <= i < |selected| ==> !NotAfter(selected[i], candidate)
    {
      var middle := (low + high) / 2;
      CompareMeaning(candidate, selected[middle]);
      if Compare(candidate, selected[middle]) < 0 {
        forall i | middle <= i < |selected| ensures !NotAfter(selected[i], candidate) {
          if i > middle && NotAfter(selected[i], candidate) {
            CandidateTransitive(selected[middle], selected[i], candidate);
          }
        }
        high := middle;
      } else {
        forall i | 0 <= i <= middle ensures NotAfter(selected[i], candidate) {
          if i < middle { CandidateTransitive(selected[i], selected[middle], candidate); }
        }
        low := middle + 1;
      }
    }
    InsertAt(selected, candidate, low);
    inserted := selected[..low] + [candidate] + selected[low..];
  }

  // ------------------------------------------------------------------ the selection

  /** What the program reads off a file name, and which keys are changed files. */
  datatype Roots = Roots(candidate: string -> Candidate, canonicalKey: string -> string,
                         changedKeys: set<string>, eligible: string -> bool)

  ghost function KeysOf(r: Roots, files: seq<string>): set<string> {
    set f | f in files :: r.canonicalKey(f)
  }

  /** Distinct non-changed files, in order of arrival. */
  ghost function Fresh(r: Roots, files: seq<string>): seq<string> {
    if files == [] then []
    else
      var before, last := Fresh(r, files[..|files| - 1]), files[|files| - 1];
      if r.canonicalKey(last) in r.changedKeys || r.canonicalKey(last) in KeysOf(r, before) then before
      else before + [last]
  }

  /** Each key of a non-changed file is there exactly once. */
  lemma {:induction false} FreshMeaning(r: Roots, files: seq<string>)
    ensures forall i, j :: 0 <= i < j < |Fresh(r, files)| ==>
      r.canonicalKey(Fresh(r, files)[i]) != r.canonicalKey(Fresh(r, files)[j])
    ensures KeysOf(r, Fresh(r, files)) == KeysOf(r, files) - r.changedKeys
    decreases |files|
  {
    if files != [] {
      var init, last := files[..|files| - 1], files[|files| - 1];
      FreshMeaning(r, init);
      assert files == init + [last];
      KeysSnoc(r, init, last);
      KeysSnoc(r, Fresh(r, init), last);
      assert forall i :: 0 <= i < |Fresh(r, init)| ==> r.canonicalKey(Fresh(r, init)[i]) in KeysOf(r, Fresh(r, init));
    }
  }

  lemma KeysSnoc(r: Roots, files: seq<string>, file: string)
    ensures KeysOf(r, files + [file]) == KeysOf(r, files) + {r.canonicalKey(file)}
  {
  }

  ghost function Eligible(r: Roots, files: seq<string>): seq<string> {
    Filter(r.eligible, Fresh(r, files))
  }

  ghost function CandidatesOf(r: Roots, files: seq<string>): seq<Candidate> {
    seq(|files|, i requires 0 <= i < |files| => r.candidate(files[i]))
  }

  ghost function FirstSorted(candidates: seq<Candidate>, limit: nat): seq<Candidate> {
    Take(limit, StableSort(NotAfter, candidates))
  }

  /** The specification: sort everything eligible, keep the first `limit`. */
  ghost function Best(r: Roots, files: seq<string>, limit: nat): seq<Candidate> {
    FirstSorted(CandidatesOf(r, Eligible(r, files)), limit)
  }

  lemma FreshSnoc(r: Roots, files: seq<string>, i: nat)
    requires i < |files|
    ensures Fresh(r, files[..i + 1]) ==
      var before := Fresh(r, files[..i]);
      if r.canonicalKey(files[i]) in r.changedKeys || r.canonicalKey(files[i]) in KeysOf(r, before) then before
      else before + [files[i]]
  {
    assert files[..i + 1][..i] == files[..i];
  }

  lemma EligibleSnoc(r: Roots, files: seq<string>, file: string)
    ensures Filter(r.eligible, files + [file]) ==
      if r.eligible(file) then Filter(r.eligible, files) + [file] else Filter(r.eligible, files)
    ensures CandidatesOf(r, files + [file]) == CandidatesOf(r, files) + [r.candidate(file)]
  {
    assert (files + [file])[..|files|] == files;
  }

  lemma FirstSortedIsSorted(candidates: seq<Candidate>, limit: nat)
    ensures Sorted(NotAfter, FirstSorted(candidates, limit)) && |FirstSorted(candidates, limit)| <= limit
  {
    CandidateOrder();
    SortProperties(NotAfter, candidates);
  }

  /** One more candidate: insert it into the kept list and cut the list back. */
  lemma FirstSortedStep(candidates: seq<Candidate>, x: Candidate, limit: nat)
    ensures FirstSorted(candidates + [x], limit) == Take(limit, Insert(NotAfter, FirstSorted(candidates, limit), x))
  {
    CandidateOrder();
    SortProperties(NotAfter, candidates);
    TakeOfInsert(StableSort(NotAfter, candidates), x, limit);
    assert (candidates + [x])[..|candidates|] == candidates;
  }

  lemma {:induction false} FilterOfPrefix(keep: Candidate -> bool, s: seq<Candidate>, n: nat)
    requires n <= |s|
    ensures Filter(keep, s[..n]) <= Filter(keep, s)
    decreases |s|
  {
    if n < |s| {
      FilterOfPrefix(keep, s[..|s| - 1], n);
      assert s[..|s| - 1][..n] == s[..n];
    } else {
      assert s[..n] == s;
    }
  }

  /** Of candidates the comparator does not tell apart, those that arrive first are kept, in that order. */
  lemma TiesInOrder(candidates: seq<Candidate>, limit: nat, x: Candidate)
    ensures var tie := (y: Candidate) => NotAfter(x, y) && NotAfter(y, x);
            Filter(tie, FirstSorted(candidates, limit)) <= Filter(tie, candidates)
  {
    var tie := (y: Candidate) => NotAfter(x, y) && NotAfter(y, x);
    var sorted := StableSort(NotAfter, candidates);
    CandidateOrder();
    SortKeepsTies(NotAfter, candidates, x, tie);
    FilterOfPrefix(tie, sorted, if |sorted| <= limit then |sorted| else limit);
    assert sorted[..|sorted|] == sorted;
  }

  lemma SortedMembers(candidates: seq<Candidate>)
    ensures Sorted(NotAfter, StableSort(NotAfter, candidates)) && |StableSort(NotAfter, candidates)| == |candidates|
    ensures forall c :: c in StableSort(NotAfter, candidates) <==> c in candidates
  {
    CandidateOrder();
    SortProperties(NotAfter, candidates);
    var sorted := StableSort(NotAfter, candidates);
    forall c ensures c in sorted <==> c in candidates {
      assert c in multiset(sorted) <==> c in multiset(candidates);
    }
  }

  lemma Within(s: seq<Candidate>, limit: nat, j: nat)
    requires j < |s|
    ensures j < |Take(limit, s)| ==> s[j] in Take(limit, s)
  {
    if j < |Take(limit, s)| { assert Take(limit, s)[j] == s[j]; }
  }

  /** The first of a sorted list come before all others. */
  lemma FirstBefore(sorted: seq<Candidate>, limit: nat, c: Candidate, out: Candidate)
    requires Sorted(NotAfter, sorted) && c in Take(limit, sorted) && out in sorted && out !in Take(limit, sorted)
    ensures NotAfter(c, out)
  {
    var best := Take(limit, sorted);
    var i :| 0 <= i < |best| && best[i] == c;
    var j :| 0 <= j < |sorted| && sorted[j] == out;
    assert sorted[i] == c;
    Within(sorted, limit, j);
  }

  lemma CandidatesMembers(r: Roots, files: seq<string>)
    ensures forall f :: f in files ==> r.candidate(f) in CandidatesOf(r, files)
    ensures forall c :: c in CandidatesOf(r, files) ==> exists f :: f in files && c == r.candidate(f)
  {
    var all := CandidatesOf(r, files);
    forall f | f in files ensures r.candidate(f) in all {
      var i :| 0 <= i < |files| && files[i] == f;
      assert all[i] == r.candidate(f);
    }
    forall c | c in all ensures exists f :: f in files && c == r.candidate(f) {
      var i :| 0 <= i < |all| && all[i] == c;
      assert files[i] in files;
    }
  }

  /** What is selected: candidates of eligible files that were offered and not changed, in order, as many as there
      are or as are allowed, and none that sorts after one left out. */
  lemma BestMeaning(r: Roots, files: seq<string>, limit: nat)
    ensures Sorted(NotAfter, Best(r, files, limit)) && |Best(r, files, limit)| == Min(limit, |Eligible(r, files)|)
    ensures forall f :: f in Eligible(r, files) <==> f in Fresh(r, files) && r.eligible(f)
    ensures forall c :: c in Best(r, files, limit) ==> exists f :: f in Eligible(r, files) && c == r.candidate(f)
    ensures forall f, c ::
      f in Eligible(r, files) && r.candidate(f) !in Best(r, files, limit) && c in Best(r, files, limit) ==>
        NotAfter(c, r.candidate(f))
  {
    var all := CandidatesOf(r, Eligible(r, files));
    SortedMembers(all);
    CandidatesMembers(r, Eligible(r, files));
    FilterMembers(r.eligible, Fresh(r, files));
    var sorted, best := StableSort(NotAfter, all), Best(r, files, limit);
    assert forall c :: c in best ==> c in sorted;
    forall f, c | f in Eligible(r, files) && r.candidate(f) !in best && c in best ensures NotAfter(c, r.candidate(f)) {
      FirstBefore(sorted, limit, c, r.candidate(f));
    }
  }

  /** How many of `n` roots are processed before the loop is told to stop. */
  ghost function Processed(shouldStop: nat -> bool, n: nat): (p: nat)
    ensures p <= n && (forall i :: 0 <= i < p ==> !shouldStop(i)) && (p < n ==> shouldStop(p))
  {
    if n == 0 then 0
    else
      var p := Processed(shouldStop, n - 1);
      if p < n - 1 || shouldStop(n - 1) then p else n
  }

  lemma ProcessedIs(shouldStop: nat -> bool, n: nat, p: nat)
    requires p <= n && (forall i :: 0 <= i < p ==> !shouldStop(i)) && (p < n ==> shouldStop(p))
    ensures Processed(shouldStop, n) == p
  {
  }

  /** Streams over the roots until told to stop. The list kept is the first `limit` of the stable sort
      of all distinct eligible non-changed roots processed, and the outcome is called partial exactly
      when some of those were cut or some fresh root was not eligible. */
  method SelectRoots(r: Roots, declarationRoots: seq<string>, limit: nat, shouldStop: nat -> bool)
    returns (selected: seq<Candidate>, partial: bool)
    ensures var processed := declarationRoots[..Processed(shouldStop, |declarationRoots|)];
            && selected == Best(r, processed, limit)
            && (partial <==> |Eligible(r, processed)| > limit || |Eligible(r, processed)| < |Fresh(r, processed)|)
  {
    var seenKeys: set<string> := {};
    var supplementalRootCount, ineligibleRootCount := 0, 0;
    selected := [];
    ghost var processed: nat := 0;
    ghost var kept: seq<string> := [];
    SelectStart(r, limit);
    for i := 0 to |declarationRoots|
      invariant processed == i && forall j :: 0 <= j < i ==> !shouldStop(j)
      invariant Selecting(r, Fresh(r, declarationRoots[..i]), kept, limit, selected, seenKeys, supplementalRootCount,
                          ineligibleRootCount)
    {
      if shouldStop(i) {
        break;
      }
      processed := i + 1;
      selected, kept, seenKeys, supplementalRootCount, ineligibleRootCount :=
        TakeRoot(r, declarationRoots, i, kept, limit, selected, seenKeys, supplementalRootCount, ineligibleRootCount);
    }
    ProcessedIs(shouldStop, |declarationRoots|, processed);
    SelectDone(r, declarationRoots[..processed], kept, limit, selected, seenKeys, supplementalRootCount,
               ineligibleRootCount);
    partial := supplementalRootCount > limit || ineligibleRootCount > 0;
  }

  /** What the loop knows about the distinct files processed. */
  ghost predicate Selecting(r: Roots, distinct: seq<string>, kept: seq<string>, limit: nat, selected: seq<Candidate>,
                            seenKeys: set<string>, supplementalRootCount: int, ineligibleRootCount: int) {
    && kept == Filter(r.eligible, distinct) && selected == FirstSorted(CandidatesOf(r, kept), limit)
    && supplementalRootCount == |kept| && ineligibleRootCount >= 0
    && supplementalRootCount + ineligibleRootCount == |distinct| && seenKeys == KeysOf(r, distinct)
  }

  lemma SelectStart(r: Roots, limit: nat)
    ensures Selecting(r, [], [], limit, [], {}, 0, 0)
  {
    assert CandidatesOf(r, []) == [];
  }

  lemma SelectDone(r: Roots, files: seq<string>, kept: seq<string>, limit: nat, selected: seq<Candidate>,
                   seenKeys: set<string>, supplementalRootCount: int, ineligibleRootCount: int)
    requires Selecting(r, Fresh(r, files), kept, limit, selected, seenKeys, supplementalRootCount, ineligibleRootCount)
    ensures selected == Best(r, files, limit)
    ensures supplementalRootCount > limit || ineligibleRootCount > 0 <==>
            |Eligible(r, files)| > limit || |Eligible(r, files)| < |Fresh(r, files)|
  {
  }

  lemma SelectStep(r: Roots, distinct: seq<string>, kept: seq<string>, limit: nat, selected: seq<Candidate>,
                   seenKeys: set<string>, supplementalRootCount: int, ineligibleRootCount: int, fileName: string)
    requires Selecting(r, distinct, kept, limit, selected, seenKeys, supplementalRootCount, ineligibleRootCount)
    ensures Sorted(NotAfter, selected) && |selected| <= limit
    ensures var seen := seenKeys + {r.canonicalKey(fileName)};
            if r.eligible(fileName) then
              Selecting(r, distinct + [fileName], kept + [fileName], limit,
                        Take(limit, Insert(NotAfter, selected, r.candidate(fileName))),
                        seen, supplementalRootCount + 1, ineligibleRootCount)
            else
              Selecting(r, distinct + [fileName], kept, limit, selected, seen, supplementalRootCount,
                        ineligibleRootCount + 1)
  {
    EligibleSnoc(r, distinct, fileName);
    KeysSnoc(r, distinct, fileName);
    KeptStep(r, kept, fileName, limit);
  }

  /** One root: changed files and repeats are passed over. */
  method TakeRoot(r: Roots, declarationRoots: seq<string>, i: nat, ghost kept: seq<string>, limit: nat,
                  selected: seq<Candidate>, seenKeys: set<string>, supplementalRootCount: int, ineligibleRootCount: int)
    returns (best: seq<Candidate>, ghost nowKept: seq<string>, seen: set<string>, supplemental: int, ineligible: int)
    requires i < |declarationRoots|
    requires Selecting(r, Fresh(r, declarationRoots[..i]), kept, limit, selected, seenKeys, supplementalRootCount,
                       ineligibleRootCount)
    ensures Selecting(r, Fresh(r, declarationRoots[..i + 1]), nowKept, limit, best, seen, supplemental, ineligible)
  {
    var fileName := declarationRoots[i];
    var key := r.canonicalKey(fileName);
    FreshSnoc(r, declarationRoots, i);
    if key in r.changedKeys || key in seenKeys {
      return selected, kept, seenKeys, supplementalRootCount, ineligibleRootCount;
    }
    seen := seenKeys + {key};
    best, nowKept, supplemental, ineligible :=
      ConsiderRoot(r, Fresh(r, declarationRoots[..i]), kept, limit, selected, seenKeys, supplementalRootCount,
                   ineligibleRootCount, fileName);
  }

  /** One root that was not seen before. */
  method ConsiderRoot(r: Roots, ghost distinct: seq<string>, ghost kept: seq<string>, limit: nat,
                      selected: seq<Candidate>, ghost seenKeys: set<string>, supplementalRootCount: int,
                      ineligibleRootCount: int, fileName: string)
    returns (best: seq<Candidate>, ghost nowKept: seq<string>, supplemental: int, ineligible: int)
    requires Selecting(r, distinct, kept, limit, selected, seenKeys, supplementalRootCount, ineligibleRootCount)
    ensures Selecting(r, distinct + [fileName], nowKept, limit, best,
                      seenKeys + {r.canonicalKey(fileName)}, supplemental, ineligible)
  {
    best, nowKept, supplemental, ineligible := selected, kept, supplementalRootCount, ineligibleRootCount;
    SelectStep(r, distinct, kept, limit, selected, seenKeys, supplementalRootCount, ineligibleRootCount, fileName);
    if !r.eligible(fileName) {
      ineligible := ineligible + 1;
    } else {
      supplemental := supplemental + 1;
      nowKept := kept + [fileName];
      best := KeepBest(selected, r.candidate(fileName), limit);
    }
  }

  lemma KeptStep(r: Roots, kept: seq<string>, fileName: string, limit: nat)
    ensures var best := FirstSorted(CandidatesOf(r, kept), limit);
            && Sorted(NotAfter, best) && |best| <= limit
            && FirstSorted(CandidatesOf(r, kept + [fileName]), limit) ==
                 Take(limit, Insert(NotAfter, best, r.candidate(fileName)))
  {
    FirstSortedIsSorted(CandidatesOf(r, kept), limit);
    FirstSortedStep(CandidatesOf(r, kept), r.candidate(fileName), limit);
    EligibleSnoc(r, kept, fileName);
  }

  method KeepBest(selected: seq<Candidate>, candidate: Candidate, limit: nat) returns (kept: seq<Candidate>)
    requires Sorted(NotAfter, selected) && |selected| <= limit
    ensures kept == Take(limit, Insert(NotAfter, selected, candidate))
  {
    if |selected| > 0 {
      CompareMeaning(candidate, selected[|selected| - 1]);
    }
    if |selected| >= limit && |selected| > 0 && Compare(candidate, selected[|selected| - 1]) >= 0 {
      TakeOfInsert(selected, candidate, limit);
      return selected;
    }
    kept := InsertCandidate(selected, candidate);
    InsertMembers(NotAfter, selected, candidate);
    if |kept| > limit {
      kept := kept[..|kept| - 1];
    }
  }
}
