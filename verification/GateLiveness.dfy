/**
 When the pre-push gate is run again with nothing changed: whether it goes on resolving the findings it
 deferred, and that the queue of deferred findings empties.
 */
module GateLiveness {
  import opened GateCarried
  import opened GateDecisions
  import opened GateProtocol
  import opened GateRuns
  import opened GateTypes
  import opened Wrappers

  /** `next` repeats the gate on what `run` saved: same head, report on disk and oracles. */
  ghost predicate RunAgain(run: Run, out: Outcome, next: Run) {
    && next.root == run.root && next.baseRef == run.baseRef && next.mergeBase == run.mergeBase
    && next.config == run.config && next.jsonPath == run.jsonPath && next.head == out.state.head
    && next.previousHeadExists && next.previousHeadIsAncestor && next.previousReport == Some(out.state.report)
    && next.evidence(out.state.report) == run.evidence(out.state.report)
  }

  /** The packs reviewed belong to files of the reviewed diff: an id is the path, `#` and what of the file
      the pack is about. */
  ghost predicate PacksOfDiff(e: Evidence, reviewed: set<string>) {
    forall id :: id in reviewed ==>
      exists path :: path in e.changed && path + "#" <= id && '#' !in path && Strip(e.blank, path) != ""
  }

  lemma {:induction false} DeferredFromCalls(cs: seq<Carried>, selected: set<nat>, e: Evidence, n: nat, c: Carried)
    requires n <= |cs| && AnswersDistinct(e)
    requires c in Outcomes(cs, selected, e.answer, n) && Deferred(c)
    ensures exists was :: was in cs && c == MarkUncertain(was, BUDGET_REASON)
  {
    var init, last := Outcomes(cs, selected, e.answer, n - 1), cs[n - 1];
    if c in init {
      DeferredFromCalls(cs, selected, e, n - 1, c);
    } else if n - 1 in selected {
      if e.answer(last).Failed? { ReasonsDiffer(e.answer(last).error); }
    } else {
      assert last in cs;
    }
  }

  /** A finding is deferred only by a resolution that did not call for it. */
  lemma DeferredByResolution(cs: seq<Carried>, e: Evidence, unresolved: seq<Carried>, c: Carried)
    requires IsResolution(cs, e, unresolved) && AnswersDistinct(e) && c in unresolved && Deferred(c)
    ensures exists was :: was in cs && c == MarkUncertain(was, BUDGET_REASON)
  {
    ReasonsDiffer("");
    if e.llmEnabled && !e.warningsIncomplete {
      var selected :| IsSelection(cs, e.callLimit, selected) && unresolved == Outcomes(cs, selected, e.answer, |cs|);
      DeferredFromCalls(cs, selected, e, |cs|, c);
    }
  }

  lemma {:induction false} KeptNotDeferred(e: Evidence, reviewed: set<string>, blocking: seq<Finding>, only: bool,
                                           cs: seq<Carried>, c: Carried)
    requires c in Kept(e, reviewed, blocking, only, cs)
    ensures !Deferred(c)
    decreases |cs|
  {
    ReasonsDiffer("");
    if c in Kept(e, reviewed, blocking, only, cs[..|cs| - 1]) {
      KeptNotDeferred(e, reviewed, blocking, only, cs[..|cs| - 1], c);
    }
  }

  /** The delta holds evidence for a traced finding whose pack it reviews. */
  lemma ReviewedMayResolve(e: Evidence, reviewed: set<string>, blocking: seq<Finding>, c: Carried)
    requires PacksOfDiff(e, reviewed) && Traced(c) && ReviewedPackOmits(e, reviewed, blocking, c)
    ensures DeltaMayResolve(e, c)
  {
    var id := c.finding.contextPackId;
    assert id in reviewed;
    var path :| path in e.changed && path + "#" <= id && '#' !in path && Strip(e.blank, path) != "";
    PackPathOf(path, id);
    assert PathMatches(e, path, path);
    assert AnyMatch(e, c.relevantFiles, e.changed);
  }

  /** Whatever a run leaves deferred needed resolution in that run. */
  lemma DeferredNeeded(e: Evidence, reviewed: set<string>, blocking: seq<Finding>, only: bool, cs: seq<Carried>,
                       active: seq<Carried>, c: Carried)
    requires IsIncrementalResolution(e, reviewed, blocking, only, cs, active) && AnswersDistinct(e)
    requires c in active && Deferred(c)
    ensures ReviewedPackOmits(e, reviewed, blocking, c) || DeltaMayResolve(e, c)
  {
    var kept, needing := Kept(e, reviewed, blocking, only, cs), Needing(e, reviewed, blocking, only, cs);
    var unresolved: seq<Carried> :| IsResolution(needing, e, unresolved) && active == Deduped(kept + unresolved);
    DedupeMeaning(kept + unresolved);
    if c in kept { KeptNotDeferred(e, reviewed, blocking, only, cs, c); }
    DeferredByResolution(needing, e, unresolved, c);
    var was :| was in needing && c == MarkUncertain(was, BUDGET_REASON);
    NeedingOrigin(e, reviewed, blocking, only, cs, was);
  }

  /** What a run saves deferred was left so by its resolution. */
  lemma SavedDeferredActive(saved: Option<State>, run: Run, out: Outcome, resolved: seq<Carried>, c: Carried)
    requires IsActive(saved, run, resolved) && out == OutcomeFor(saved, run, resolved)
    requires c in out.state.active && Deferred(c)
    ensures c in resolved
  {
    var active, current := Remaining(resolved, run.carriedSuppressed), NewCarried(saved, run);
    DedupeMeaning(active + current);
    RemainingMembers(resolved, run.carriedSuppressed);
    assert c in active + current;
    assert BUDGET_REASON != "" && forall i :: 0 <= i < |current| ==> !Deferred(current[i]);
  }

  lemma StateRoot(saved: Option<State>, run: Run)
    ensures Choose(saved, run).report.root == run.root
  {
  }

  /** What the gate relies on in a report and its answers: only reviewed packs of the diff, and no answer in
      the words of the budget text. */
  ghost predicate Regular(run: Run, r: Report) {
    AnswersDistinct(EvidenceOf(run, r)) && PacksOfDiff(EvidenceOf(run, r), r.reviewedPackIds)
  }

  /** Every deferred finding a run saves would be tried again on its report, whatever triage suppresses. */
  lemma DeferredRetried(saved: Option<State>, run: Run, out: Outcome, c: Carried)
    requires IsRun(saved, run, out) && AllTraced(out.state.active) && Regular(run, out.state.report)
    requires c in out.state.active && Deferred(c)
    ensures DeltaMayResolve(EvidenceOf(run, out.state.report), c)
  {
    var choice := Choose(saved, run);
    var e, reviewed := EvidenceOf(run, choice.report), choice.report.reviewedPackIds;
    var blocking := CurrentDecision(run, choice.report).blockingFindings;
    var resolved: seq<Carried> :| IsActive(saved, run, resolved) && out == OutcomeFor(saved, run, resolved);
    SavedDeferredActive(saved, run, out, resolved, c);
    DeferredNeeded(e, reviewed, blocking, choice.step == ResolutionResume, saved.value.active, resolved, c);
    if !DeltaMayResolve(e, c) {
      ReviewedMayResolve(e, reviewed, blocking, c);
    }
  }

  /** Run again with nothing changed, the gate resumes resolution exactly when no coverage debt was saved
      and some finding was left deferred. */
  lemma ResumesAgain(saved: Option<State>, run: Run, out: Outcome, next: Run)
    requires TracedState(saved) && IsRun(saved, run, out) && RunAgain(run, out, next)
    requires Regular(run, out.state.report)
    ensures Choose(Some(out.state), next).step == ResolutionResume <==>
            !out.state.debt.Owed() && exists c :: c in out.state.active && Deferred(c)
  {
    SavedState(saved, run, out);
    StateRoot(saved, run);
    ChoiceConfig(saved, run);
    TracedKept(saved, run, out);
    var s := out.state;
    assert Eligible(s, next);
    StepMeaning(s, next);
    assert EvidenceOf(next, s.report) == EvidenceOf(run, s.report);
    forall c | c in s.active && Deferred(c) ensures DeltaMayResolve(EvidenceOf(next, s.report), c) {
      DeferredRetried(saved, run, out, c);
    }
  }

  /** Run again with nothing changed after coverage debt was saved, the gate resumes that coverage exactly when
      the report was stamped and had context packs. */
  lemma DebtResumesAgain(saved: Option<State>, run: Run, out: Outcome, next: Run)
    requires Stamped(saved) && IsRun(saved, run, out) && RunAgain(run, out, next) && out.state.debt.Owed()
    ensures Choose(Some(out.state), next).step == CoverageResume
      <==> out.state.report.snapshot.Some? && out.state.report.contextPacks != map[]
  {
    SavedState(saved, run, out);
    StateRoot(saved, run);
    ChoiceConfig(saved, run);
    StampedKept(saved, run, out);
    var s := out.state;
    assert s.root == run.root && s.jsonPath == run.jsonPath && s.baseRef == run.baseRef;
    StepMeaning(s, next);
    assert s.debt.Owed() && CanResumeCoverage(s, next) ==> Choose(Some(s), next).step == CoverageResume;
  }

  /** A resumed coverage leaves debt exactly when the follow-up left the quality gate failing or the coverage too
      partial for the policy. */
  lemma ResumedCoverage(saved: Option<State>, run: Run, out: Outcome)
    requires IsRun(saved, run, out) && Choose(saved, run).step == CoverageResume && run.previousReport.Some?
    requires run.followup(run.previousReport.value).Attempted?
    ensures var f, p := run.followup(run.previousReport.value), run.config.policy;
            out.state.debt.Owed() <==>
              (p.failOnQualityGate && f.qualityGateFails)
              || (p.failOnPartial.Some? && p.failOnPartial.value > 0 && f.partialSeverity >= p.failOnPartial.value)
  {
    SavedState(saved, run, out);
    ResumedReport(saved, run);
  }

  /** With no debt, a run on newer commits of the same branch reviews exactly what came after the saved head. */
  lemma NewCommitsReviewed(saved: Option<State>, run: Run, out: Outcome, next: Run)
    requires IsRun(saved, run, out) && !out.state.debt.Owed() && next.head != out.state.head
    requires next.root == run.root && next.baseRef == run.baseRef && next.mergeBase == run.mergeBase
    requires next.config == run.config && next.previousHeadExists && next.previousHeadIsAncestor
    ensures var choice := Choose(Some(out.state), next);
            && choice.step == Incremental && choice.carries && !choice.pending
            && choice.report.diffMode == Patch && choice.report.diffBase == out.state.head + "..HEAD"
            && choice.report.changedPaths == next.deltaReview.changedPaths
  {
    SavedState(saved, run, out);
    ChoiceConfig(saved, run);
    StepMeaning(out.state, next);
  }

  /** The gate run over and over with nothing changed and no coverage debt left. */
  ghost predicate Repetition(runs: seq<Run>, outs: seq<Outcome>, limit: nat) {
    && |outs| == |runs|
    && (forall i :: 0 <= i < |runs| ==> QuietAt(runs, outs, limit, i))
    && (forall i :: 0 <= i < |runs| - 1 ==> RepeatsAt(runs, outs, i))
  }

  ghost predicate Quiet(run: Run, out: Outcome, limit: nat) {
    && run.config.policy.maxResolutionCalls == limit && !out.state.debt.Owed()
    && Regular(run, out.state.report)
  }

  ghost predicate Repeats(run: Run, out: Outcome, next: Run, after: Outcome) {
    RunAgain(run, out, next) && IsRun(Some(out.state), next, after)
  }

  ghost predicate QuietAt(runs: seq<Run>, outs: seq<Outcome>, limit: nat, i: nat) {
    i < |runs| == |outs| && Quiet(runs[i], outs[i], limit)
  }

  ghost predicate RepeatsAt(runs: seq<Run>, outs: seq<Outcome>, i: nat) {
    i + 1 < |runs| == |outs| && Repeats(runs[i], outs[i], runs[i + 1], outs[i + 1])
  }

  lemma {:induction false} HasDeferred(cs: seq<Carried>)
    requires DeferredCount(cs) > 0
    ensures exists c :: c in cs && Deferred(c)
    decreases |cs|
  {
    var init := cs[..|cs| - 1];
    if DeferredCount(init) > 0 {
      HasDeferred(init);
      var c :| c in init && Deferred(c);
      assert c in cs;
    }
  }

  /** A repetition takes the call limit off the queue, or empties it. */
  lemma OneRepetition(saved: Option<State>, run: Run, out: Outcome, next: Run, after: Outcome, limit: nat)
    requires TracedState(saved) && IsRun(saved, run, out) && Quiet(run, out, limit)
    requires Repeats(run, out, next, after) && Quiet(next, after, limit)
    requires limit >= 1 && DeferredCount(out.state.active) > 0
    ensures DeferredCount(after.state.active) <=
      if DeferredCount(out.state.active) <= limit then 0 else DeferredCount(out.state.active) - limit
  {
    HasDeferred(out.state.active);
    var c :| c in out.state.active && Deferred(c);
    ResumesAgain(saved, run, out, next);
    SavedState(Some(out.state), next, after);
    ResumeDrains(out.state, next, after);
  }

  lemma TracedNext(runs: seq<Run>, outs: seq<Outcome>, i: nat)
    requires RepeatsAt(runs, outs, i) && AllTraced(outs[i].state.active)
    ensures AllTraced(outs[i + 1].state.active)
  {
    TracedKept(Some(outs[i].state), runs[i + 1], outs[i + 1]);
  }

  lemma {:induction false} TracedAt(runs: seq<Run>, outs: seq<Outcome>, i: nat)
    requires i < |runs| == |outs| && AllTraced(outs[0].state.active)
    requires forall k :: 0 <= k < i ==> RepeatsAt(runs, outs, k)
    ensures AllTraced(outs[i].state.active)
    decreases i
  {
    if i > 0 {
      TracedAt(runs, outs, i - 1);
      TracedNext(runs, outs, i - 1);
    }
  }

  lemma FirstStep(saved: Option<State>, runs: seq<Run>, outs: seq<Outcome>, limit: nat)
    requires limit >= 1 && RepeatsAt(runs, outs, 0) && QuietAt(runs, outs, limit, 0) && QuietAt(runs, outs, limit, 1)
    requires TracedState(saved) && IsRun(saved, runs[0], outs[0]) && DeferredCount(outs[0].state.active) > 0
    ensures DeferredCount(outs[1].state.active) <=
      if DeferredCount(outs[0].state.active) <= limit then 0 else DeferredCount(outs[0].state.active) - limit
  {
    OneRepetition(saved, runs[0], outs[0], runs[1], outs[1], limit);
  }

  lemma LaterStep(runs: seq<Run>, outs: seq<Outcome>, limit: nat, i: nat)
    requires limit >= 1 && RepeatsAt(runs, outs, i) && RepeatsAt(runs, outs, i + 1)
    requires QuietAt(runs, outs, limit, i + 1) && QuietAt(runs, outs, limit, i + 2)
    requires AllTraced(outs[i].state.active) && DeferredCount(outs[i + 1].state.active) > 0
    ensures DeferredCount(outs[i + 2].state.active) <=
      if DeferredCount(outs[i + 1].state.active) <= limit then 0 else DeferredCount(outs[i + 1].state.active) - limit
  {
    OneRepetition(Some(outs[i].state), runs[i + 1], outs[i + 1], runs[i + 2], outs[i + 2], limit);
  }

  lemma RepetitionStep(saved: Option<State>, runs: seq<Run>, outs: seq<Outcome>, limit: nat, i: nat)
    requires limit >= 1 && Repetition(runs, outs, limit) && i + 1 < |runs|
    requires TracedState(saved) && IsRun(saved, runs[0], outs[0])
    requires DeferredCount(outs[i].state.active) > 0
    ensures DeferredCount(outs[i + 1].state.active) <=
      if DeferredCount(outs[i].state.active) <= limit then 0 else DeferredCount(outs[i].state.active) - limit
  {
    if i == 0 {
      FirstStep(saved, runs, outs, limit);
    } else {
      TracedKept(saved, runs[0], outs[0]);
      TracedAt(runs, outs, i - 1);
      LaterStep(runs, outs, limit, i - 1);
    }
  }

  /** A count that loses `limit` at every step while it is positive is zero somewhere. */
  lemma ZeroSomewhere(counts: seq<nat>, limit: nat, n: nat) returns (j: nat)
    requires n < |counts| && counts[0] <= n * limit
    requires forall i :: 0 <= i < n && counts[i] > 0 ==>
      counts[i + 1] <= if counts[i] <= limit then 0 else counts[i] - limit
    ensures j <= n && counts[j] == 0
  {
    if i: nat :| i < n && counts[i] == 0 {
      return i;
    }
    Drained(counts, limit, n);
    return n;
  }

  ghost function Counts(outs: seq<Outcome>): (counts: seq<nat>)
    ensures |counts| == |outs| && forall i :: 0 <= i < |outs| ==> counts[i] == DeferredCount(outs[i].state.active)
  {
    seq(|outs|, i requires 0 <= i < |outs| => DeferredCount(outs[i].state.active))
  }

  lemma CountsFall(saved: Option<State>, runs: seq<Run>, outs: seq<Outcome>, limit: nat)
    requires limit >= 1 && runs != [] && Repetition(runs, outs, limit)
    requires TracedState(saved) && IsRun(saved, runs[0], outs[0])
    ensures var counts := Counts(outs);
            forall i :: 0 <= i < |outs| - 1 && counts[i] > 0 ==>
              counts[i + 1] <= if counts[i] <= limit then 0 else counts[i] - limit
  {
    forall i | 0 <= i < |outs| - 1 && Counts(outs)[i] > 0
      ensures Counts(outs)[i + 1] <= if Counts(outs)[i] <= limit then 0 else Counts(outs)[i] - limit
    {
      RepetitionStep(saved, runs, outs, limit, i);
    }
  }

  /** Repeating the gate empties the queue: with `limit` calls a run, at the latest after `n` repetitions if
      at most `n` times `limit` findings were deferred. */
  lemma QueueEmpties(saved: Option<State>, runs: seq<Run>, outs: seq<Outcome>, limit: nat, n: nat) returns (j: nat)
    requires limit >= 1 && Repetition(runs, outs, limit) && n < |runs|
    requires TracedState(saved) && IsRun(saved, runs[0], outs[0])
    requires DeferredCount(outs[0].state.active) <= n * limit
    ensures j <= n && DeferredCount(outs[j].state.active) == 0
  {
    CountsFall(saved, runs, outs, limit);
    j := ZeroSomewhere(Counts(outs), limit, n);
  }
}
