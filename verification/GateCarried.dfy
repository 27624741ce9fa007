/**
 Carried findings of the pre-push gate: deduplication, classification against the new report, and
 bounded resolution (`dedupe_carried_findings` in gate_retry.py,
 `_resolve_incremental_carried_findings` and `resolve_carried_findings` in cli/gate.py).
 */
module GateCarried {
  import opened Collections
  import opened GateTypes
  import opened Ordering
  import opened Wrappers

  /** In two parts, so that the verifier sees its beginning without going through all of it. */
  const BUDGET_REASON := "Resolution call" + " budget exhausted for this retry; the finding remains blocking."
  const REMAINS_REASON := "The finding remains in the current review report."
  const UNCHANGED_REASON := "No relevant resolution surface changed since the previous gate attempt."
  const DISABLED_REASON := "Current delta may contain resolution evidence, but LLM resolution is disabled."
  const INCOMPLETE_REASON := "Current diff warnings were omitted or truncated; resolution evidence is incomplete."
  const FAILED_PREFIX := "Resolution verifier failed: "

  /** What the resolver answers about one finding. */
  datatype Answer = Resolved | Unresolved(status: Status, reason: string) | Failed(error: string)

  /** Everything about one run that the carried findings depend on. `changed` are the paths of the reviewed
      diff, `linked` those its changed packs link to. `blank` are the characters stripped from paths; `globs`
      matches a path with a pattern. */
  datatype Evidence = Evidence(
    fingerprint: Finding -> string,
    changed: set<string>,
    novelReviewable: bool,
    linked: set<string>,
    blank: char -> bool,
    globs: (string, string) -> bool,
    stale: Carried -> bool,
    answer: Carried -> Answer,
    llmEnabled: bool,
    warningsIncomplete: bool,
    callLimit: nat)

  predicate Deferred(c: Carried) {
    c.resolutionReason == BUDGET_REASON
  }

  // ------------------------------------------------------------------ deduplication

  ghost predicate HasKey(cs: seq<Carried>, key: FindingKey) {
    exists i :: 0 <= i < |cs| && KeyOf(cs[i].finding) == key
  }

  ghost predicate UniqueKeys(cs: seq<Carried>) {
    forall i, j :: 0 <= i < j < |cs| ==> KeyOf(cs[i].finding) != KeyOf(cs[j].finding)
  }

  /** First carried finding of each key, in order. */
  ghost function Deduped(cs: seq<Carried>): seq<Carried> {
    if cs == [] then []
    else
      var init, last := cs[..|cs| - 1], cs[|cs| - 1];
      if HasKey(init, KeyOf(last.finding)) then Deduped(init) else Deduped(init) + [last]
  }

  lemma HasKeySnoc(cs: seq<Carried>, c: Carried)
    ensures forall key :: HasKey(cs + [c], key) <==> HasKey(cs, key) || key == KeyOf(c.finding)
  {
    forall key ensures HasKey(cs + [c], key) <==> HasKey(cs, key) || key == KeyOf(c.finding) {
      if HasKey(cs, key) {
        var i :| 0 <= i < |cs| && KeyOf(cs[i].finding) == key;
        assert KeyOf((cs + [c])[i].finding) == key;
      }
      assert (cs + [c])[|cs|] == c;
    }
  }

  /** Deduplication loses no key, keeps each once, and only drops elements. */
  lemma {:induction false} DedupeMeaning(cs: seq<Carried>)
    ensures UniqueKeys(Deduped(cs))
    ensures forall key :: HasKey(Deduped(cs), key) <==> HasKey(cs, key)
    ensures forall c :: c in Deduped(cs) ==> c in cs
    decreases |cs|
  {
    if cs != [] {
      var init, last := cs[..|cs| - 1], cs[|cs| - 1];
      DedupeMeaning(init);
      assert cs == init + [last];
      HasKeySnoc(init, last);
      HasKeySnoc(Deduped(init), last);
      assert HasKey(init, KeyOf(last.finding)) <==> HasKey(Deduped(init), KeyOf(last.finding));
    }
  }

  /** What stays of a key is the first with it. */
  lemma {:induction false} DedupeKeepsFirst(cs: seq<Carried>, i: nat)
    requires i < |cs| && !HasKey(cs[..i], KeyOf(cs[i].finding))
    ensures cs[i] in Deduped(cs)
    decreases |cs|
  {
    var init := cs[..|cs| - 1];
    if i < |init| {
      assert init[..i] == cs[..i];
      DedupeKeepsFirst(init, i);
    }
  }

  method DedupeCarried(cs: seq<Carried>) returns (deduped: seq<Carried>)
    ensures deduped == Deduped(cs)
  {
    var seen: set<FindingKey> := {};
    deduped := [];
    for i := 0 to |cs|
      invariant deduped == Deduped(cs[..i])
      invariant forall key :: key in seen <==> HasKey(cs[..i], key)
    {
      assert cs[..i + 1] == cs[..i] + [cs[i]];
      HasKeySnoc(cs[..i], cs[i]);
      var key := KeyOf(cs[i].finding);
      if key in seen {
        continue;
      }
      seen := seen + {key};
      deduped := deduped + [cs[i]];
    }
    assert cs[..|cs|] == cs;
  }

  // ------------------------------------------------------------------ bounded resolution

  /** Order of resolution calls: severity first, then those deferred before, then position. */
  predicate CallsFirst(cs: seq<Carried>, i: nat, j: nat) {
    && i < |cs| && j < |cs|
    && (cs[i].finding.severity < cs[j].finding.severity
        || (cs[i].finding.severity == cs[j].finding.severity
            && (if Deferred(cs[i]) == Deferred(cs[j]) then i < j else Deferred(cs[i]))))
  }

  /** The indexes in call order. */
  ghost predicate IsCallOrder(cs: seq<Carried>, order: seq<nat>) {
    && |order| == |cs|
    && (forall i, j :: 0 <= i < j < |order| ==> CallsFirst(cs, order[i], order[j]))
  }

  method CallOrder(cs: seq<Carried>) returns (order: seq<nat>)
    ensures IsCallOrder(cs, order)
    ensures forall i :: 0 <= i < |order| ==> order[i] < |cs|
  {
    order := [];
    for e := 0 to |cs|
      invariant |order| == e && forall i :: 0 <= i < e ==> order[i] < e
      invariant forall i, j :: 0 <= i < j < |order| ==> CallsFirst(cs, order[i], order[j])
    {
      var at := |order|;
      while at > 0 && CallsFirst(cs, e, order[at - 1])
        invariant 0 <= at <= |order|
        invariant forall i :: at <= i < |order| ==> CallsFirst(cs, e, order[i])
      {
        at := at - 1;
      }
      forall i | 0 <= i < at ensures CallsFirst(cs, order[i], e) {
        if i < at - 1 { assert CallsFirst(cs, order[i], order[at - 1]); }
      }
      order := order[..at] + [e] + order[at..];
    }
  }

  /** At most `callLimit` indexes are chosen, all of them when they fit, and no chosen one comes after
      one that is passed over. */
  ghost predicate IsSelection(cs: seq<Carried>, limit: nat, selected: set<nat>) {
    && (forall i :: i in selected ==> i < |cs|)
    && |selected| == (if |cs| <= limit then |cs| else limit)
    && (forall i, j :: i in selected && 0 <= j < |cs| && j !in selected ==> CallsFirst(cs, i, j))
  }

  method SelectCalls(cs: seq<Carried>, limit: nat) returns (selected: set<nat>)
    ensures IsSelection(cs, limit, selected)
  {
    var order := CallOrder(cs);
    Permutation(cs, order);
    var n := if |cs| <= limit then |cs| else limit;
    selected := {};
    for k := 0 to n
      invariant selected == (set i | 0 <= i < k :: order[i])
      invariant |selected| == k
    {
      assert forall i :: 0 <= i < k ==> CallsFirst(cs, order[i], order[k]) && order[i] != order[k];
      selected := selected + {order[k]};
    }
    forall i, j | i in selected && 0 <= j < |cs| && j !in selected ensures CallsFirst(cs, i, j) {
      var a :| 0 <= a < n && order[a] == i;
      assert j in order;
      var b :| 0 <= b < |order| && order[b] == j;
      assert b >= n;
    }
  }

  /** A finding that is called for is at least as severe as one that is not; of two equally severe ones it was
      deferred before if the other was, and comes first if neither tells them apart. */
  lemma CalledBefore(cs: seq<Carried>, limit: nat, selected: set<nat>, i: nat, j: nat)
    requires IsSelection(cs, limit, selected) && i in selected && j < |cs| && j !in selected
    ensures cs[i].finding.severity <= cs[j].finding.severity
    ensures cs[i].finding.severity == cs[j].finding.severity ==>
      && (cs[j].resolutionReason == BUDGET_REASON ==> cs[i].resolutionReason == BUDGET_REASON)
      && (cs[i].resolutionReason == cs[j].resolutionReason ==> i < j)
  {
    assert CallsFirst(cs, i, j);
  }

  /** A strict order of |cs| indexes names each of them. */
  lemma Permutation(cs: seq<Carried>, order: seq<nat>)
    requires IsCallOrder(cs, order) && forall i :: 0 <= i < |order| ==> order[i] < |cs|
    ensures forall j: nat :: j < |cs| ==> j in order
  {
    assert forall i, j :: 0 <= i < j < |order| ==> order[i] != order[j];
    DistinctBelow(order, |cs|);
  }

  lemma {:induction false} DistinctBelow(s: seq<nat>, n: nat)
    requires |s| == n && forall i :: 0 <= i < n ==> s[i] < n
    requires forall i, j :: 0 <= i < j < n ==> s[i] != s[j]
    ensures forall k: nat :: k < n ==> k in s
  {
    var image := set i | 0 <= i < n :: s[i];
    ImageCount(s, n);
    var all := Below(n);
    assert image <= all;
    assert all == image + (all - image);
    assert |all - image| == 0;
    forall k: nat | k < n ensures k in s {
      assert k in image;
    }
  }

  function MarkUncertain(c: Carried, reason: string): Carried {
    c.(status := Uncertain, resolutionReason := reason)
  }

  /** What remains of a finding whose resolution call was made. */
  function AfterCall(c: Carried, answer: Answer): Option<Carried> {
    match answer
    case Resolved => None
    case Unresolved(status, reason) => Some(c.(status := status, resolutionReason := reason))
    case Failed(error) => Some(MarkUncertain(c, FAILED_PREFIX + error))
  }

  function AllUncertain(cs: seq<Carried>, reason: string): (r: seq<Carried>)
    ensures |r| == |cs| && forall i :: 0 <= i < |r| ==> r[i] == MarkUncertain(cs[i], reason)
  {
    seq(|cs|, i requires 0 <= i < |cs| => MarkUncertain(cs[i], reason))
  }

  /** The outcome of the first `n` findings for a given choice of calls. */
  ghost function Outcomes(cs: seq<Carried>, selected: set<nat>, answer: Carried -> Answer, n: nat): seq<Carried>
    requires n <= |cs|
  {
    if n == 0 then []
    else
      var init, c := Outcomes(cs, selected, answer, n - 1), cs[n - 1];
      if n - 1 !in selected then init + [MarkUncertain(c, BUDGET_REASON)]
      else match AfterCall(c, answer(c))
           case None => init
           case Some(left) => init + [left]
  }

  ghost predicate IsResolution(cs: seq<Carried>, e: Evidence, unresolved: seq<Carried>) {
    if cs == [] then unresolved == []
    else if !e.llmEnabled then unresolved == AllUncertain(cs, DISABLED_REASON)
    else if e.warningsIncomplete then unresolved == AllUncertain(cs, INCOMPLETE_REASON)
    else exists selected ::
      IsSelection(cs, e.callLimit, selected) && unresolved == Outcomes(cs, selected, e.answer, |cs|)
  }

  lemma {:induction false} OutcomeAnswered(cs: seq<Carried>, selected: set<nat>, answer: Carried -> Answer, n: nat,
                                           c: Carried) returns (was: Carried)
    requires n <= |cs| && c in Outcomes(cs, selected, answer, n) && c.status == StillPresent
    ensures was in cs && answer(was) == Unresolved(StillPresent, c.resolutionReason)
    ensures c == was.(status := StillPresent, resolutionReason := c.resolutionReason)
  {
    if c in Outcomes(cs, selected, answer, n - 1) {
      was := OutcomeAnswered(cs, selected, answer, n - 1, c);
    } else {
      was := cs[n - 1];
      assert n - 1 in selected && AfterCall(was, answer(was)) == Some(c);
    }
  }

  /** Only an answer of the resolver says that a finding it was asked about is still present. */
  lemma PresentIfAnswered(cs: seq<Carried>, e: Evidence, unresolved: seq<Carried>, c: Carried) returns (was: Carried)
    requires IsResolution(cs, e, unresolved) && c in unresolved && c.status == StillPresent
    ensures was in cs && e.llmEnabled && !e.warningsIncomplete
    ensures e.answer(was) == Unresolved(StillPresent, c.resolutionReason)
    ensures c == was.(status := StillPresent, resolutionReason := c.resolutionReason)
  {
    var selected :| IsSelection(cs, e.callLimit, selected)
                    && unresolved == Outcomes(cs, selected, e.answer, |cs|);
    was := OutcomeAnswered(cs, selected, e.answer, |cs|, c);
  }

  method ResolveCarried(cs: seq<Carried>, e: Evidence) returns (unresolved: seq<Carried>)
    ensures IsResolution(cs, e, unresolved)
  {
    if cs == [] {
      return [];
    }
    if !e.llmEnabled {
      return AllUncertain(cs, DISABLED_REASON);
    }
    if e.warningsIncomplete {
      return AllUncertain(cs, INCOMPLETE_REASON);
    }
    var selected := SelectCalls(cs, e.callLimit);
    unresolved := [];
    for i := 0 to |cs|
      invariant unresolved == Outcomes(cs, selected, e.answer, i)
    {
      if i !in selected {
        unresolved := unresolved + [MarkUncertain(cs[i], BUDGET_REASON)];
      } else {
        var left := AfterCall(cs[i], e.answer(cs[i]));
        if left.Some? {
          unresolved := unresolved + [left.value];
        }
      }
    }
  }

  // ------------------------------------------------------------------ classification

  datatype Class = Keep(carried: Carried) | Resolve | Stale

  function Fingerprints(e: Evidence, findings: seq<Finding>): set<string> {
    set f | f in findings :: e.fingerprint(f)
  }

  /** The carried finding's own pack was reviewed again without reporting it. */
  predicate ReviewedPackOmits(e: Evidence, reviewedPackIds: set<string>, blocking: seq<Finding>, c: Carried) {
    var ids := (if c.finding.contextPackId != "" then {c.finding.contextPackId} else {})
             + (if c.packId.Some? && c.packId.value != "" then {c.packId.value} else {});
    ids * reviewedPackIds != {} && e.fingerprint(c.finding) !in Fingerprints(e, blocking)
  }

  /** Either id a carried finding knows its pack by will do. */
  lemma OmittedMeaning(e: Evidence, reviewed: set<string>, blocking: seq<Finding>, c: Carried)
    ensures ReviewedPackOmits(e, reviewed, blocking, c) <==>
      && (exists id :: id in reviewed && id != "" && (c.finding.contextPackId == id || c.packId == Some(id)))
      && forall f :: f in blocking ==> e.fingerprint(f) != e.fingerprint(c.finding)
  {
    var ids := (if c.finding.contextPackId != "" then {c.finding.contextPackId} else {})
             + (if c.packId.Some? && c.packId.value != "" then {c.packId.value} else {});
    assert ids * reviewed != {} <==> exists id :: id in reviewed && id in ids by {
      if id :| id in reviewed && id in ids { assert id in ids * reviewed; }
      if id :| id in ids * reviewed { assert id in reviewed && id in ids; }
    }
  }

  /** A path without the blanks around it. */
  function Strip(blank: char -> bool, path: string): string {
    if path == "" then ""
    else if blank(path[0]) then Strip(blank, path[1..])
    else if blank(path[|path| - 1]) then Strip(blank, path[..|path| - 1])
    else path
  }

  /** `relevance_matches_changed_path` */
  predicate PathMatches(e: Evidence, relevantPath: string, changedPath: string) {
    var relevant, changed := Strip(e.blank, relevantPath), Strip(e.blank, changedPath);
    relevant != "" && changed != "" && (relevant == changed || e.globs(changed, relevant))
  }

  predicate AnyMatch(e: Evidence, relevant: set<string>, changed: set<string>) {
    exists a, b :: a in relevant && b in changed && PathMatches(e, a, b)
  }

  /** The reviewed diff may hold evidence that the finding is resolved. */
  predicate DeltaMayResolve(e: Evidence, c: Carried) {
    var relevant := if c.relevantFiles == {} then {c.finding.file} else c.relevantFiles;
    e.changed != {} && (AnyMatch(e, relevant, e.changed) || e.novelReviewable || AnyMatch(e, relevant, e.linked))
  }

  /** Stripping takes blanks off both ends and nothing else. */
  lemma {:induction false} StripMeaning(blank: char -> bool, path: string)
    returns (before: string, after: string)
    ensures path == before + Strip(blank, path) + after
    ensures (forall c :: c in before ==> blank(c)) && (forall c :: c in after ==> blank(c))
    ensures var stripped := Strip(blank, path);
            stripped != "" ==> !blank(stripped[0]) && !blank(stripped[|stripped| - 1])
    decreases |path|
  {
    before, after := "", "";
    if path == "" {
    } else if blank(path[0]) {
      before, after := StripMeaning(blank, path[1..]);
      assert path == [path[0]] + path[1..];
      before := [path[0]] + before;
    } else if blank(path[|path| - 1]) {
      before, after := StripMeaning(blank, path[..|path| - 1]);
      assert path == path[..|path| - 1] + [path[|path| - 1]];
      after := after + [path[|path| - 1]];
    }
  }

  /** A diff that is not empty holds evidence if it brings a reviewable new file, or if one of its paths or of those
      its packs link to is, up to blanks, a relevant path or matches one as a pattern. */
  lemma EvidenceFound(e: Evidence, c: Carried, a: string, b: string)
    requires e.changed != {} && b in e.changed + e.linked
    requires a in c.relevantFiles || (c.relevantFiles == {} && a == c.finding.file)
    requires e.novelReviewable
      || (Strip(e.blank, a) != "" && Strip(e.blank, b) != ""
          && (Strip(e.blank, a) == Strip(e.blank, b) || e.globs(Strip(e.blank, b), Strip(e.blank, a))))
    ensures DeltaMayResolve(e, c)
  {
    assert e.novelReviewable || PathMatches(e, a, b);
  }

  /** And only then. */
  lemma EvidenceNamed(e: Evidence, c: Carried) returns (a: string, b: string)
    requires DeltaMayResolve(e, c)
    ensures e.changed != {}
    ensures e.novelReviewable
      || ((a in c.relevantFiles || (c.relevantFiles == {} && a == c.finding.file)) && b in e.changed + e.linked
          && Strip(e.blank, a) != "" && Strip(e.blank, b) != ""
          && (Strip(e.blank, a) == Strip(e.blank, b) || e.globs(Strip(e.blank, b), Strip(e.blank, a))))
  {
    a, b := "", "";
    if !e.novelReviewable {
      var relevant := if c.relevantFiles == {} then {c.finding.file} else c.relevantFiles;
      if AnyMatch(e, relevant, e.changed) {
        a, b :| a in relevant && b in e.changed && PathMatches(e, a, b);
      } else {
        a, b :| a in relevant && b in e.linked && PathMatches(e, a, b);
      }
    }
  }

  function Classify(e: Evidence, reviewedPackIds: set<string>, blocking: seq<Finding>, onlyDeferred: bool,
                    c: Carried): Class {
    if e.fingerprint(c.finding) in Fingerprints(e, blocking) then
      Keep(c.(status := StillPresent, resolutionReason := REMAINS_REASON))
    else if onlyDeferred && !Deferred(c) then Keep(c)
    else if ReviewedPackOmits(e, reviewedPackIds, blocking, c) || DeltaMayResolve(e, c) then Resolve
    else if e.stale(c) then Stale
    else Keep(c.(status := StillPresent, resolutionReason := UNCHANGED_REASON))
  }

  ghost function Kept(e: Evidence, reviewed: set<string>, blocking: seq<Finding>, only: bool,
                      cs: seq<Carried>): seq<Carried> {
    if cs == [] then []
    else
      var init, last := Kept(e, reviewed, blocking, only, cs[..|cs| - 1]),
        Classify(e, reviewed, blocking, only, cs[|cs| - 1]);
      if last.Keep? then init + [last.carried] else init
  }

  ghost function Needing(e: Evidence, reviewed: set<string>, blocking: seq<Finding>, only: bool,
                         cs: seq<Carried>): seq<Carried> {
    if cs == [] then []
    else
      var init := Needing(e, reviewed, blocking, only, cs[..|cs| - 1]);
      if Classify(e, reviewed, blocking, only, cs[|cs| - 1]).Resolve? then init + [cs[|cs| - 1]] else init
  }

  ghost predicate IsIncrementalResolution(e: Evidence, reviewed: set<string>, blocking: seq<Finding>, only: bool,
                                          cs: seq<Carried>, active: seq<Carried>) {
    exists unresolved ::
      && IsResolution(Needing(e, reviewed, blocking, only, cs), e, unresolved)
      && active == Deduped(Kept(e, reviewed, blocking, only, cs) + unresolved)
  }

  method ResolveIncremental(e: Evidence, reviewed: set<string>, blocking: seq<Finding>, only: bool, cs: seq<Carried>)
    returns (active: seq<Carried>)
    ensures IsIncrementalResolution(e, reviewed, blocking, only, cs, active)
  {
    var unchangedActive: seq<Carried> := [];
    var needsResolution: seq<Carried> := [];
    for i := 0 to |cs|
      invariant unchangedActive == Kept(e, reviewed, blocking, only, cs[..i])
      invariant needsResolution == Needing(e, reviewed, blocking, only, cs[..i])
    {
      assert cs[..i + 1][..i] == cs[..i];
      match Classify(e, reviewed, blocking, only, cs[i]) {
        case Keep(c) => unchangedActive := unchangedActive + [c];
        case Resolve => needsResolution := needsResolution + [cs[i]];
        case Stale =>
      }
    }
    assert cs[..|cs|] == cs;
    var unresolved := ResolveCarried(needsResolution, e);
    active := DedupeCarried(unchangedActive + unresolved);
  }

  // ------------------------------------------------------------------ conservation

  /** The calls made are determined: two selections are the same. */
  lemma SelectionUnique(cs: seq<Carried>, limit: nat, a: set<nat>, b: set<nat>)
    requires IsSelection(cs, limit, a) && IsSelection(cs, limit, b)
    ensures a == b
  {
    if !(a <= b) && !(b <= a) {
      var i :| i in a - b;
      var j :| j in b - a;
      OneFirst(cs, i, j);
      assert false;
    }
    assert b == (b - a) + (a * b) && a == (a - b) + (a * b);
    assert |b| == |b - a| + |a * b| && |a| == |a - b| + |a * b|;
  }

  lemma OneFirst(cs: seq<Carried>, i: nat, j: nat)
    ensures !CallsFirst(cs, i, j) || !CallsFirst(cs, j, i)
  {
  }

  /** The selected calls include one for `c`. */
  ghost predicate Selects(cs: seq<Carried>, selected: set<nat>, c: Carried) {
    exists i :: i in selected && i < |cs| && cs[i] == c
  }

  /** The resolver was called for `c`, one of the findings `cs` sent to resolution. */
  ghost predicate CalledFor(cs: seq<Carried>, limit: nat, c: Carried) {
    exists selected :: IsSelection(cs, limit, selected) && Selects(cs, selected, c)
  }

  /** A call was made for `c` and its answer was that the finding is resolved. */
  ghost predicate ResolvedByCall(cs: seq<Carried>, e: Evidence, c: Carried) {
    e.llmEnabled && !e.warningsIncomplete && e.answer(c).Resolved? && CalledFor(cs, e.callLimit, c)
  }

  /** Ways a carried finding may leave the active list. */
  ghost predicate Discharged(e: Evidence, reviewed: set<string>, blocking: seq<Finding>, only: bool,
                             cs: seq<Carried>, c: Carried) {
    match Classify(e, reviewed, blocking, only, c)
    case Keep(_) => false
    case Stale => e.stale(c)
    case Resolve => ResolvedByCall(Needing(e, reviewed, blocking, only, cs), e, c)
  }

  lemma {:induction false} KeptMembers(e: Evidence, reviewed: set<string>, blocking: seq<Finding>, only: bool,
                                       cs: seq<Carried>, c: Carried)
    requires c in cs
    ensures var k := Classify(e, reviewed, blocking, only, c);
            && (k.Keep? ==> k.carried in Kept(e, reviewed, blocking, only, cs))
            && (k.Resolve? ==> c in Needing(e, reviewed, blocking, only, cs))
    decreases |cs|
  {
    var init, last := cs[..|cs| - 1], cs[|cs| - 1];
    assert cs == init + [last];
    if c in init { KeptMembers(e, reviewed, blocking, only, init, c); }
  }

  lemma {:induction false} KeptOrigin(e: Evidence, reviewed: set<string>, blocking: seq<Finding>, only: bool,
                                      cs: seq<Carried>, k: Carried) returns (c: Carried)
    requires k in Kept(e, reviewed, blocking, only, cs)
    ensures c in cs && Classify(e, reviewed, blocking, only, c) == Keep(k)
    decreases |cs|
  {
    var init, last := cs[..|cs| - 1], cs[|cs| - 1];
    assert cs == init + [last];
    if k in Kept(e, reviewed, blocking, only, init) {
      c := KeptOrigin(e, reviewed, blocking, only, init, k);
    } else {
      c := last;
    }
  }

  lemma {:induction false} NeedingOrigin(e: Evidence, reviewed: set<string>, blocking: seq<Finding>, only: bool,
                                         cs: seq<Carried>, c: Carried)
    requires c in Needing(e, reviewed, blocking, only, cs)
    ensures c in cs && Classify(e, reviewed, blocking, only, c).Resolve?
    decreases |cs|
  {
    var init, last := cs[..|cs| - 1], cs[|cs| - 1];
    assert cs == init + [last];
    if c in Needing(e, reviewed, blocking, only, init) {
      NeedingOrigin(e, reviewed, blocking, only, init, c);
    }
  }

  lemma {:induction false} NeedingUnique(e: Evidence, reviewed: set<string>, blocking: seq<Finding>, only: bool,
                                         cs: seq<Carried>)
    requires UniqueKeys(cs)
    ensures UniqueKeys(Needing(e, reviewed, blocking, only, cs))
    decreases |cs|
  {
    if cs != [] {
      var init := cs[..|cs| - 1];
      var needing := Needing(e, reviewed, blocking, only, init);
      NeedingUnique(e, reviewed, blocking, only, init);
      forall i | 0 <= i < |needing| ensures KeyOf(needing[i].finding) != KeyOf(cs[|cs| - 1].finding) {
        NeedingOrigin(e, reviewed, blocking, only, init, needing[i]);
      }
    }
  }

  lemma {:induction false} OutcomeMembers(cs: seq<Carried>, selected: set<nat>, answer: Carried -> Answer, n: nat,
                                          i: nat)
    requires i < n <= |cs|
    ensures i !in selected ==> MarkUncertain(cs[i], BUDGET_REASON) in Outcomes(cs, selected, answer, n)
    ensures i in selected && AfterCall(cs[i], answer(cs[i])).Some? ==>
      AfterCall(cs[i], answer(cs[i])).value in Outcomes(cs, selected, answer, n)
  {
    if i < n - 1 { OutcomeMembers(cs, selected, answer, n - 1, i); }
  }

  lemma {:induction false} OutcomeOrigin(cs: seq<Carried>, selected: set<nat>, answer: Carried -> Answer, n: nat,
                                         left: Carried) returns (i: nat)
    requires n <= |cs| && left in Outcomes(cs, selected, answer, n)
    ensures i < n && if i in selected then AfterCall(cs[i], answer(cs[i])) == Some(left)
                     else left == MarkUncertain(cs[i], BUDGET_REASON)
  {
    if left in Outcomes(cs, selected, answer, n - 1) {
      i := OutcomeOrigin(cs, selected, answer, n - 1, left);
    } else {
      i := n - 1;
    }
  }

  /** Only the outcome of its resolution differs. */
  predicate SameButOutcome(c: Carried, was: Carried) {
    c == was.(status := c.status, resolutionReason := c.resolutionReason)
  }

  /** What resolution leaves of `left` is a finding sent to it that no call resolved. */
  lemma ResolutionOrigin(cs: seq<Carried>, e: Evidence, unresolved: seq<Carried>, left: Carried)
    returns (i: nat)
    requires IsResolution(cs, e, unresolved) && left in unresolved
    ensures i < |cs| && SameButOutcome(left, cs[i])
    ensures forall selected ::
      e.llmEnabled && !e.warningsIncomplete && IsSelection(cs, e.callLimit, selected) && i in selected
      ==> !e.answer(cs[i]).Resolved?
  {
    if e.llmEnabled && !e.warningsIncomplete {
      var selected :| IsSelection(cs, e.callLimit, selected) && unresolved == Outcomes(cs, selected, e.answer, |cs|);
      i := OutcomeOrigin(cs, selected, e.answer, |cs|, left);
      forall other | IsSelection(cs, e.callLimit, other) ensures other == selected {
        SelectionUnique(cs, e.callLimit, other, selected);
      }
    } else {
      i :| 0 <= i < |unresolved| && unresolved[i] == left;
    }
  }

  lemma UnresolvedKeepsKey(cs: seq<Carried>, e: Evidence, unresolved: seq<Carried>, c: Carried)
    requires IsResolution(cs, e, unresolved) && c in cs && !ResolvedByCall(cs, e, c)
    ensures HasKey(unresolved, KeyOf(c.finding))
  {
    var i :| 0 <= i < |cs| && cs[i] == c;
    if e.llmEnabled && !e.warningsIncomplete {
      var selected :| IsSelection(cs, e.callLimit, selected) && unresolved == Outcomes(cs, selected, e.answer, |cs|);
      OutcomeMembers(cs, selected, e.answer, |cs|, i);
      assert i in selected ==> Selects(cs, selected, c);
      var left := if i in selected then AfterCall(c, e.answer(c)).value else MarkUncertain(c, BUDGET_REASON);
      assert left in unresolved && KeyOf(left.finding) == KeyOf(c.finding);
    } else {
      assert KeyOf(unresolved[i].finding) == KeyOf(c.finding);
    }
  }

  /** What is left under the key of `c`, if no other finding has that key, was not resolved by a call. */
  lemma LeftUnresolved(cs: seq<Carried>, e: Evidence, unresolved: seq<Carried>, c: Carried, left: Carried)
    requires IsResolution(cs, e, unresolved) && c in cs && UniqueKeys(cs)
    requires left in unresolved && KeyOf(left.finding) == KeyOf(c.finding)
    ensures !ResolvedByCall(cs, e, c)
  {
    var i := ResolutionOrigin(cs, e, unresolved, left);
    if e.llmEnabled && !e.warningsIncomplete && CalledFor(cs, e.callLimit, c) {
      var selected :| IsSelection(cs, e.callLimit, selected) && Selects(cs, selected, c);
      var j :| j in selected && j < |cs| && cs[j] == c;
      assert i == j;
    }
  }

  /** A finding sent to resolution comes back, under its key, unless a call was made for it and answered
      resolved; then, if no other finding sent has its key, it does not. */
  lemma ResolutionKeepsKey(cs: seq<Carried>, e: Evidence, unresolved: seq<Carried>, c: Carried)
    requires IsResolution(cs, e, unresolved) && c in cs
    ensures !ResolvedByCall(cs, e, c) ==> HasKey(unresolved, KeyOf(c.finding))
    ensures UniqueKeys(cs) && ResolvedByCall(cs, e, c) ==> !HasKey(unresolved, KeyOf(c.finding))
  {
    if !ResolvedByCall(cs, e, c) {
      UnresolvedKeepsKey(cs, e, unresolved, c);
    } else if UniqueKeys(cs) && HasKey(unresolved, KeyOf(c.finding)) {
      var k :| 0 <= k < |unresolved| && KeyOf(unresolved[k].finding) == KeyOf(c.finding);
      LeftUnresolved(cs, e, unresolved, c, unresolved[k]);
    }
  }

  /** Every carried finding stays active under its key, or it was discharged: stale, or resolved by a call
      that was made. Of findings with distinct keys exactly the discharged ones leave. */
  lemma CarriedConserved(e: Evidence, reviewed: set<string>, blocking: seq<Finding>, only: bool,
                         cs: seq<Carried>, active: seq<Carried>, c: Carried)
    requires IsIncrementalResolution(e, reviewed, blocking, only, cs, active) && c in cs
    ensures HasKey(active, KeyOf(c.finding)) || Discharged(e, reviewed, blocking, only, cs, c)
    ensures UniqueKeys(cs) && Discharged(e, reviewed, blocking, only, cs, c) ==> !HasKey(active, KeyOf(c.finding))
  {
    var kept, needing := Kept(e, reviewed, blocking, only, cs), Needing(e, reviewed, blocking, only, cs);
    var unresolved: seq<Carried> :| IsResolution(needing, e, unresolved) && active == Deduped(kept + unresolved);
    DedupeMeaning(kept + unresolved);
    if !Discharged(e, reviewed, blocking, only, cs, c) {
      KeptMembers(e, reviewed, blocking, only, cs, c);
      match Classify(e, reviewed, blocking, only, c)
      case Keep(k) =>
        assert KeyOf(k.finding) == KeyOf(c.finding);
        InConcat(kept, unresolved, k);
      case Resolve =>
        ResolutionKeepsKey(needing, e, unresolved, c);
        var i :| 0 <= i < |unresolved| && KeyOf(unresolved[i].finding) == KeyOf(c.finding);
        InConcat(kept, unresolved, unresolved[i]);
      case Stale =>
    } else if UniqueKeys(cs) && HasKey(active, KeyOf(c.finding)) {
      var x :| 0 <= x < |kept + unresolved| && KeyOf((kept + unresolved)[x].finding) == KeyOf(c.finding);
      LeftIsKept(e, reviewed, blocking, only, cs, unresolved, c, (kept + unresolved)[x]);
    }
  }

  /** Of findings with distinct keys none that was discharged is left. */
  lemma LeftIsKept(e: Evidence, reviewed: set<string>, blocking: seq<Finding>, only: bool, cs: seq<Carried>,
                   unresolved: seq<Carried>, c: Carried, left: Carried)
    requires c in cs && UniqueKeys(cs) && IsResolution(Needing(e, reviewed, blocking, only, cs), e, unresolved)
    requires left in Kept(e, reviewed, blocking, only, cs) || left in unresolved
    requires KeyOf(left.finding) == KeyOf(c.finding)
    ensures !Discharged(e, reviewed, blocking, only, cs, c)
  {
    if left in Kept(e, reviewed, blocking, only, cs) {
      var was := KeptOrigin(e, reviewed, blocking, only, cs, left);
      assert was == c;
    } else {
      var needing := Needing(e, reviewed, blocking, only, cs);
      var i := ResolutionOrigin(needing, e, unresolved, left);
      NeedingOrigin(e, reviewed, blocking, only, cs, needing[i]);
      assert needing[i] == c;
      NeedingUnique(e, reviewed, blocking, only, cs);
      LeftUnresolved(needing, e, unresolved, c, left);
    }
  }

  lemma {:induction false} NeedingFewer(e: Evidence, reviewed: set<string>, blocking: seq<Finding>, only: bool,
                                        cs: seq<Carried>)
    ensures |Needing(e, reviewed, blocking, only, cs)| <= |cs|
    decreases |cs|
  {
    if cs != [] { NeedingFewer(e, reviewed, blocking, only, cs[..|cs| - 1]); }
  }

  /** Within the call limit a call is made for every finding sent to resolution. */
  lemma AllCalled(cs: seq<Carried>, e: Evidence, unresolved: seq<Carried>, c: Carried)
    requires IsResolution(cs, e, unresolved) && c in cs && |cs| <= e.callLimit
    requires e.llmEnabled && !e.warningsIncomplete
    ensures CalledFor(cs, e.callLimit, c)
  {
    var selected :| IsSelection(cs, e.callLimit, selected) && unresolved == Outcomes(cs, selected, e.answer, |cs|);
    var i :| 0 <= i < |cs| && cs[i] == c;
    var all := Below(|cs|);
    assert all == selected + (all - selected);
    assert |all - selected| == 0;
    assert i in all && i in selected;
  }

  /** Evidence about `c` is in the reviewed diff. */
  ghost predicate HasEvidence(e: Evidence, reviewed: set<string>, blocking: seq<Finding>, c: Carried) {
    ReviewedPackOmits(e, reviewed, blocking, c) || DeltaMayResolve(e, c)
  }

  /** When the calls suffice a carried finding leaves if and only if it is not reported again, its earlier
      outcome is not kept for a retry, and the resolver says resolved or, without evidence, it is stale. */
  lemma LeavesExactly(e: Evidence, reviewed: set<string>, blocking: seq<Finding>, only: bool, cs: seq<Carried>,
                      active: seq<Carried>, c: Carried)
    requires IsIncrementalResolution(e, reviewed, blocking, only, cs, active) && c in cs
    requires UniqueKeys(cs) && |cs| <= e.callLimit
    ensures !HasKey(active, KeyOf(c.finding)) <==>
      && (forall f :: f in blocking ==> e.fingerprint(f) != e.fingerprint(c.finding)) && (only ==> Deferred(c))
      && if HasEvidence(e, reviewed, blocking, c) then e.llmEnabled && !e.warningsIncomplete && e.answer(c).Resolved?
         else e.stale(c)
  {
    CarriedConserved(e, reviewed, blocking, only, cs, active, c);
    var kept, needing := Kept(e, reviewed, blocking, only, cs), Needing(e, reviewed, blocking, only, cs);
    var unresolved: seq<Carried> :| IsResolution(needing, e, unresolved) && active == Deduped(kept + unresolved);
    NeedingFewer(e, reviewed, blocking, only, cs);
    KeptMembers(e, reviewed, blocking, only, cs, c);
    if Classify(e, reviewed, blocking, only, c).Resolve? && e.llmEnabled && !e.warningsIncomplete {
      AllCalled(needing, e, unresolved, c);
    }
  }

  /** Whatever stays active is one of the carried findings, changed in nothing but its outcome. */
  lemma ActiveOrigin(e: Evidence, reviewed: set<string>, blocking: seq<Finding>, only: bool, cs: seq<Carried>,
                     active: seq<Carried>, c: Carried) returns (was: Carried)
    requires IsIncrementalResolution(e, reviewed, blocking, only, cs, active) && c in active
    ensures was in cs && SameButOutcome(c, was)
  {
    var kept, needing := Kept(e, reviewed, blocking, only, cs), Needing(e, reviewed, blocking, only, cs);
    var unresolved: seq<Carried> :| IsResolution(needing, e, unresolved) && active == Deduped(kept + unresolved);
    DedupeMeaning(kept + unresolved);
    if c in kept {
      was := KeptOrigin(e, reviewed, blocking, only, cs, c);
    } else {
      var i := ResolutionOrigin(needing, e, unresolved, c);
      NeedingOrigin(e, reviewed, blocking, only, cs, needing[i]);
      was := needing[i];
    }
  }

  lemma InConcat(a: seq<Carried>, b: seq<Carried>, c: Carried)
    requires c in a || c in b
    ensures HasKey(a + b, KeyOf(c.finding))
  {
    assert c in a + b;
    var i :| 0 <= i < |a + b| && (a + b)[i] == c;
  }

  // ------------------------------------------------------------------ the deferred queue shrinks

  ghost function DeferredCount(cs: seq<Carried>): nat {
    if cs == [] then 0
    else DeferredCount(cs[..|cs| - 1]) + if Deferred(cs[|cs| - 1]) then 1 else 0
  }

  lemma {:induction false} DeferredConcat(a: seq<Carried>, b: seq<Carried>)
    ensures DeferredCount(a + b) == DeferredCount(a) + DeferredCount(b)
    decreases |b|
  {
    if b == [] {
      assert a + b == a;
    } else {
      assert (a + b)[..|a + b| - 1] == a + b[..|b| - 1];
      DeferredConcat(a, b[..|b| - 1]);
    }
  }

  lemma {:induction false} DeferredDeduped(cs: seq<Carried>)
    ensures DeferredCount(Deduped(cs)) <= DeferredCount(cs)
    decreases |cs|
  {
    if cs != [] {
      var init, last := cs[..|cs| - 1], cs[|cs| - 1];
      DeferredDeduped(init);
      assert (Deduped(init) + [last])[..|Deduped(init)|] == Deduped(init);
    }
  }

  lemma {:induction false} NoneDeferred(cs: seq<Carried>)
    requires forall i :: 0 <= i < |cs| ==> !Deferred(cs[i])
    ensures DeferredCount(cs) == 0
    decreases |cs|
  {
    if cs != [] { NoneDeferred(cs[..|cs| - 1]); }
  }

  /** The texts the gate writes itself differ from the budget text. */
  lemma ReasonsDiffer(error: string)
    ensures REMAINS_REASON != BUDGET_REASON && UNCHANGED_REASON != BUDGET_REASON
    ensures DISABLED_REASON != BUDGET_REASON && INCOMPLETE_REASON != BUDGET_REASON
    ensures FAILED_PREFIX + error != BUDGET_REASON
  {
    assert |BUDGET_REASON| == |DISABLED_REASON| == 78;
    assert |REMAINS_REASON| == 49 && |UNCHANGED_REASON| == 71 && |INCOMPLETE_REASON| == 83;
    assert DISABLED_REASON[76] == 'd' && BUDGET_REASON[76] == 'g';
    assert (FAILED_PREFIX + error)[11] == FAILED_PREFIX[11] == 'v';
    assert BUDGET_REASON[11] == 'c';
  }

  /** No answer uses the budget text as its reason. */
  ghost predicate AnswersDistinct(e: Evidence) {
    forall c: Carried :: e.answer(c).Unresolved? ==> e.answer(c).reason != BUDGET_REASON
  }

  ghost function Unselected(selected: set<nat>, n: nat): nat {
    if n == 0 then 0 else Unselected(selected, n - 1) + if n - 1 in selected then 0 else 1
  }

  lemma {:induction false} UnselectedCount(selected: set<nat>, n: nat)
    requires forall i :: i in selected ==> i < n
    ensures Unselected(selected, n) + |selected| == n
  {
    if n > 0 {
      var rest := selected - {n - 1};
      UnselectedCount(rest, n - 1);
      UnselectedAgrees(selected, rest, n - 1);
      assert n - 1 in selected ==> selected == rest + {n - 1};
      assert n - 1 !in selected ==> selected == rest;
    } else {
      assert selected == {};
    }
  }

  lemma {:induction false} UnselectedAgrees(a: set<nat>, b: set<nat>, n: nat)
    requires forall i: nat :: i < n ==> (i in a <==> i in b)
    ensures Unselected(a, n) == Unselected(b, n)
  {
    if n > 0 { UnselectedAgrees(a, b, n - 1); }
  }

  lemma {:induction false} OutcomesDeferred(cs: seq<Carried>, selected: set<nat>, e: Evidence, n: nat)
    requires n <= |cs| && AnswersDistinct(e)
    ensures DeferredCount(Outcomes(cs, selected, e.answer, n)) == Unselected(selected, n)
  {
    if n > 0 {
      OutcomesDeferred(cs, selected, e, n - 1);
      var init, c := Outcomes(cs, selected, e.answer, n - 1), cs[n - 1];
      var left := if n - 1 in selected then AfterCall(c, e.answer(c)) else Some(MarkUncertain(c, BUDGET_REASON));
      if left.Some? {
        DeferredConcat(init, [left.value]);
        assert [left.value][..0] == [];
        if e.answer(c).Failed? { ReasonsDiffer(e.answer(c).error); }
      }
    }
  }

  /** A resolution leaves at most what exceeds the call limit deferred. */
  lemma ResolutionDeferred(cs: seq<Carried>, e: Evidence, unresolved: seq<Carried>)
    requires IsResolution(cs, e, unresolved) && AnswersDistinct(e)
    ensures DeferredCount(unresolved) <= if |cs| <= e.callLimit then 0 else |cs| - e.callLimit
  {
    if cs == [] {
    } else if !e.llmEnabled || e.warningsIncomplete {
      ReasonsDiffer("");
      NoneDeferred(unresolved);
    } else {
      var selected :| IsSelection(cs, e.callLimit, selected) && unresolved == Outcomes(cs, selected, e.answer, |cs|);
      OutcomesDeferred(cs, selected, e, |cs|);
      UnselectedCount(selected, |cs|);
    }
  }

  /** In a run that only retries deferred findings, nothing else is sent to resolution and nothing kept
      is deferred. */
  lemma {:induction false} OnlyDeferredRetried(e: Evidence, reviewed: set<string>, blocking: seq<Finding>,
                                               cs: seq<Carried>)
    ensures DeferredCount(Kept(e, reviewed, blocking, true, cs)) == 0
    ensures |Needing(e, reviewed, blocking, true, cs)| <= DeferredCount(cs)
    decreases |cs|
  {
    if cs != [] {
      OnlyDeferredRetried(e, reviewed, blocking, cs[..|cs| - 1]);
      ReasonsDiffer("");
      var init, last := Kept(e, reviewed, blocking, true, cs[..|cs| - 1]),
        Classify(e, reviewed, blocking, true, cs[|cs| - 1]);
      if last.Keep? {
        DeferredConcat(init, [last.carried]);
        assert [last.carried][..0] == [];
      }
    }
  }

  lemma RetryShrinksDeferred(e: Evidence, reviewed: set<string>, blocking: seq<Finding>, cs: seq<Carried>,
                             active: seq<Carried>)
    requires IsIncrementalResolution(e, reviewed, blocking, true, cs, active) && AnswersDistinct(e)
    ensures DeferredCount(active) <= if DeferredCount(cs) <= e.callLimit then 0 else DeferredCount(cs) - e.callLimit
  {
    var kept, needing := Kept(e, reviewed, blocking, true, cs), Needing(e, reviewed, blocking, true, cs);
    var unresolved: seq<Carried> :| IsResolution(needing, e, unresolved) && active == Deduped(kept + unresolved);
    OnlyDeferredRetried(e, reviewed, blocking, cs);
    ResolutionDeferred(needing, e, unresolved);
    DeferredConcat(kept, unresolved);
    DeferredDeduped(kept + unresolved);
  }
}
