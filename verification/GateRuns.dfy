/**
 What every run of the pre-push gate keeps, over any number of runs: the reviews behind the saved state
 cover its range, no carried finding is lost, and deferred findings are all handled in the end.
 */
module GateRuns {
  import opened GateCarried
  import opened GateDecisions
  import opened GateProtocol
  import opened GateTypes
  import opened Wrappers

  // ------------------------------------------------------------------ the reviews behind the state

  lemma ExtendCover(log: seq<Review>, from: Sha, to: Sha, next: Review)
    requires Covers(log, from, to) && next.from == to
    ensures Covers(log + [next], from, next.to)
  {
    var l := log + [next];
    forall i | 0 <= i < |l| - 1 ensures l[i].to == l[i + 1].from {
      assert i == |log| - 1 || log[i].to == log[i + 1].from;
    }
  }

  /** What a run saves beside its carried findings. */
  lemma SavedState(saved: Option<State>, run: Run, out: Outcome)
    requires IsRun(saved, run, out)
    ensures var choice, s := Choose(saved, run), out.state;
            && s.root == run.root && s.baseRef == run.baseRef && s.jsonPath == run.jsonPath
            && s.mergeBase == run.mergeBase && s.head == SavedHead(saved, choice, run) && s.config == run.config
            && s.report == choice.report && s.schema == SCHEMA && UniqueKeys(s.active)
            && s.debt == DebtOf(choice.report, CurrentDecision(run, choice.report))
            && (s.debt.Owed() <==> !Complete(run.config.policy, choice.report))
  {
    var choice := Choose(saved, run);
    MergeNoDebt(choice.report, CurrentDecision(run, choice.report));
    var resolved: seq<Carried> :| IsActive(saved, run, resolved) && out == OutcomeFor(saved, run, resolved);
    ChoiceConfig(saved, run);
    DebtNeverCarried(saved, run);
    CurrentDecisionMeaning(run, choice.report);
    DedupeMeaning(Remaining(resolved, run.carriedSuppressed) + NewCarried(saved, run));
  }

  /** What debt a report leaves under a policy. */
  ghost predicate DebtFits(debt: CoverageDebt, r: Report, p: Policy) {
    && (debt.qualityGateFailed <==> p.failOnQualityGate && r.qualityGateFails)
    && (debt.partialBlocked <==> p.failOnPartial.Some? && p.failOnPartial.value > 0
                                 && r.partialSeverity >= p.failOnPartial.value)
    && (QualityGateFailed in debt.reasons <==> debt.qualityGateFailed)
    && (PartialCoverage(r.partialSeverity) in debt.reasons <==> debt.partialBlocked)
    && debt.partialSeverity == r.partialSeverity && debt.qualityGateFails == r.qualityGateFails
  }

  lemma EvaluatedDebt(r: Report, p: Policy, findings: seq<Finding>, d: Decision)
    requires d == ReplaceBlocking(Evaluate(r, p), findings, p)
    ensures DebtFits(DebtOf(r, d), r, p)
  {
    EvaluatedReasons(r, p);
    OtherReasonsStay(Evaluate(r, p), findings, p, QualityGateFailed);
    OtherReasonsStay(Evaluate(r, p), findings, p, PartialCoverage(r.partialSeverity));
  }

  /** What debt a run saves, and why: the quality gate failed, coverage was too partial for the policy, or both. */
  lemma SavedDebtMeaning(saved: Option<State>, run: Run, out: Outcome)
    requires IsRun(saved, run, out)
    ensures DebtFits(out.state.debt, out.state.report, run.config.policy)
  {
    SavedState(saved, run, out);
    var r, p := Choose(saved, run).report, run.config.policy;
    EvaluatedDebt(r, p, Unsuppressed(Evaluate(r, p).blockingFindings, run.suppressed), CurrentDecision(run, r));
  }

  lemma LogExtended(s: State, log: seq<Review>, next: Review, after: State)
    requires Inv(s, log) && !s.debt.Owed()
    requires next.from == s.head && next.to == after.head && next.report == after.report && StampAgrees(next)
    requires next.report.config == after.config == s.config && after.mergeBase == s.mergeBase
    requires after.schema == SCHEMA && UniqueKeys(after.active)
    requires after.debt.Owed() <==> !Complete(after.config.policy, next.report)
    ensures Inv(after, log + [next])
  {
    ExtendCover(log, s.mergeBase, s.head, next);
    var l := log + [next];
    assert forall i :: 0 <= i < |log| ==> l[i] == log[i] && (CompleteAt(l, i) <==> CompleteAt(log, i));
    assert l[|log|] == next;
  }

  lemma LogReplaced(s: State, log: seq<Review>, report: Report, after: State)
    requires Inv(s, log)
    requires report.snapshot == s.report.snapshot && report == after.report
    requires report.config == after.config == s.config && after.mergeBase == s.mergeBase && after.head == s.head
    requires after.schema == SCHEMA && UniqueKeys(after.active)
    requires after.debt.Owed() <==> !Complete(after.config.policy, report)
    ensures Inv(after, log[..|log| - 1] + [log[|log| - 1].(report := report)])
  {
    var n := |log| - 1;
    var l := log[..n] + [log[n].(report := report)];
    assert StampAgrees(log[n]);
    assert forall i :: 0 <= i < n ==> l[i] == log[i] && (CompleteAt(l, i) <==> CompleteAt(log, i));
    assert l[n] == log[n].(report := report);
    assert StampAgrees(l[n]);
    assert n > 0 ==> log[n - 1].to == log[n].from;
  }

  /** The reviews behind the new state cover its range without a gap, all complete but possibly the
      last, which is complete exactly when no debt is saved. */
  lemma LogKept(saved: Option<State>, log: seq<Review>, run: Run, out: Outcome)
    requires saved.Some? ==> Inv(saved.value, log)
    requires IsRun(saved, run, out)
    ensures Inv(out.state, NextLog(log, saved, run))
  {
    var choice := Choose(saved, run);
    SavedState(saved, run, out);
    ChoiceConfig(saved, run);
    NewReviewStamp(saved, run);
    match choice.step
    case Full =>
    case Incremental =>
      LogExtended(saved.value, log, Review(saved.value.head, run.head, choice.report), out.state);
    case _ =>
      ResumesKeepStamp(saved.value, run);
      LogReplaced(saved.value, log, choice.report, out.state);
  }

  /** If a run allows the push of HEAD, its saved state has that head, nothing carried and no debt, and
      the reports behind it are complete and cover merge-base..HEAD without a gap. */
  lemma AllowedPushIsCovered(saved: Option<State>, log: seq<Review>, run: Run, out: Outcome)
    requires saved.Some? ==> Inv(saved.value, log)
    requires IsRun(saved, run, out) && !out.decision.blocked
    ensures out.state.head == run.head && out.state.active == [] && !out.state.debt.Owed()
    ensures Covers(NextLog(log, saved, run), run.mergeBase, run.head)
    ensures forall i :: 0 <= i < |NextLog(log, saved, run)| ==> CompleteAt(NextLog(log, saved, run), i)
  {
    AllowedMeaning(saved, run, out);
    SavedState(saved, run, out);
    ChoiceConfig(saved, run);
    LogKept(saved, log, run, out);
    var next := NextLog(log, saved, run);
    assert CompleteAt(next, |next| - 1);
  }

  // ------------------------------------------------------------------ carried findings across a run

  lemma {:induction false} RemainingMembers(cs: seq<Carried>, suppressed: Carried -> bool)
    ensures forall c :: c in Remaining(cs, suppressed) <==> c in cs && !suppressed(c)
    ensures DeferredCount(Remaining(cs, suppressed)) <= DeferredCount(cs)
    decreases |cs|
  {
    if cs != [] {
      var init, last := cs[..|cs| - 1], cs[|cs| - 1];
      RemainingMembers(init, suppressed);
      assert cs == init + [last];
      var kept := Remaining(init, suppressed);
      assert (kept + [last])[..|kept|] == kept;
    }
  }

  /** What the carried findings of this run came to, before suppressions, held a suppressed one under this key. */
  ghost predicate SuppressedUnder(s: State, run: Run, out: Outcome, key: FindingKey) {
    exists resolved: seq<Carried>, i :: IsActive(Some(s), run, resolved) && out == OutcomeFor(Some(s), run, resolved)
      && 0 <= i < |resolved| && KeyOf(resolved[i].finding) == key && run.carriedSuppressed(resolved[i])
  }

  /** What stays under a key is saved under it or suppressed. */
  lemma SavedOrSuppressed(resolved: seq<Carried>, suppressed: Carried -> bool, current: seq<Carried>, key: FindingKey)
    requires HasKey(resolved, key)
    ensures HasKey(Deduped(Remaining(resolved, suppressed) + current), key)
      || exists i :: 0 <= i < |resolved| && KeyOf(resolved[i].finding) == key && suppressed(resolved[i])
  {
    var i :| 0 <= i < |resolved| && KeyOf(resolved[i].finding) == key;
    RemainingMembers(resolved, suppressed);
    if !suppressed(resolved[i]) {
      InConcat(Remaining(resolved, suppressed), current, resolved[i]);
      DedupeMeaning(Remaining(resolved, suppressed) + current);
    }
  }

  /** In a run on an eligible state, every carried finding is saved again under its key, or was
      resolved, or went stale, or what was kept under its key is suppressed. */
  lemma CarriedNeverDropped(s: State, run: Run, out: Outcome, c: Carried)
    requires IsRun(Some(s), run, out) && Eligible(s, run) && c in s.active
    ensures var choice := Choose(Some(s), run);
      || HasKey(out.state.active, KeyOf(c.finding))
      || Discharged(EvidenceOf(run, choice.report), choice.report.reviewedPackIds,
                    CurrentDecision(run, choice.report).blockingFindings, choice.step == ResolutionResume, s.active, c)
      || SuppressedUnder(s, run, out, KeyOf(c.finding))
  {
    var choice := Choose(Some(s), run);
    StepMeaning(s, run);
    var resolved: seq<Carried> :| IsActive(Some(s), run, resolved) && out == OutcomeFor(Some(s), run, resolved);
    CarriedConserved(EvidenceOf(run, choice.report), choice.report.reviewedPackIds,
                     CurrentDecision(run, choice.report).blockingFindings, choice.step == ResolutionResume,
                     s.active, resolved, c);
    if HasKey(resolved, KeyOf(c.finding)) {
      SavedOrSuppressed(resolved, run.carriedSuppressed, NewCarried(Some(s), run), KeyOf(c.finding));
    }
  }

  /** Every run keeps carried findings traced to the files of their packs. */
  lemma TracedKept(saved: Option<State>, run: Run, out: Outcome)
    requires TracedState(saved) && IsRun(saved, run, out)
    ensures AllTraced(out.state.active)
  {
    var choice := Choose(saved, run);
    var resolved: seq<Carried> :| IsActive(saved, run, resolved) && out == OutcomeFor(saved, run, resolved);
    var active, current := Remaining(resolved, run.carriedSuppressed), NewCarried(saved, run);
    DedupeMeaning(active + current);
    RemainingMembers(resolved, run.carriedSuppressed);
    forall c | c in out.state.active ensures Traced(c) {
      assert c in active + current;
      if c in resolved {
        var was := ActiveOrigin(EvidenceOf(run, choice.report), choice.report.reviewedPackIds,
                                CurrentDecision(run, choice.report).blockingFindings, choice.step == ResolutionResume,
                                saved.value.active, resolved, c);
      }
    }
  }

  /** Every run stamps what it saves for the range it saves it for. */
  lemma StampedKept(saved: Option<State>, run: Run, out: Outcome)
    requires Stamped(saved) && IsRun(saved, run, out)
    ensures Stamped(Some(out.state))
  {
    SavedState(saved, run, out);
    if Choose(saved, run).report.snapshot.Some? { ChoiceStamped(saved, run); }
  }

  /** The findings that block a run are saved with it. */
  lemma BlockingSaved(saved: Option<State>, run: Run, out: Outcome, f: Finding)
    requires IsRun(saved, run, out)
    requires f in CurrentDecision(run, Choose(saved, run).report).blockingFindings
    ensures HasKey(out.state.active, KeyOf(f))
  {
    var resolved: seq<Carried> :| IsActive(saved, run, resolved) && out == OutcomeFor(saved, run, resolved);
    var active, current := Remaining(resolved, run.carriedSuppressed), NewCarried(saved, run);
    var i :| 0 <= i < |current| && current[i].finding == f;
    InConcat(active, current, current[i]);
    DedupeMeaning(active + current);
  }

  lemma NotPendingYet(fingerprint: Finding -> string, run: Run, r: Report, active: seq<Carried>, debt: CoverageDebt)
    ensures PendingDelta !in Combine(fingerprint, CurrentDecision(run, r), active, debt).reasons
  {
    var d, p := Evaluate(r, run.config.policy), run.config.policy;
    OtherReasonsStay(d, Unsuppressed(d.blockingFindings, run.suppressed), p, PendingDelta);
  }

  lemma DecisionPending(saved: Option<State>, run: Run, active: seq<Carried>, deduped: seq<Carried>, out: Outcome)
    requires out == OutcomeOf(saved, run, active, deduped)
    ensures PendingDelta in out.decision.reasons <==> Choose(saved, run).pending
    ensures Choose(saved, run).pending ==> out.decision.blocked
  {
    var choice := Choose(saved, run);
    NotPendingYet(EvidenceOf(run, choice.report).fingerprint, run, choice.report, active, CarriedDebtOf(saved, choice));
  }

  lemma PendingChoice(saved: Option<State>, run: Run)
    ensures Choose(saved, run).pending <==>
      Choose(saved, run).step == CoverageResume && saved.Some? && run.head != saved.value.head
  {
  }

  /** A push is held for commits waiting for review exactly when a coverage review of an older head was resumed. */
  lemma PendingMeaning(saved: Option<State>, run: Run, out: Outcome)
    requires IsRun(saved, run, out)
    ensures PendingDelta in out.decision.reasons <==>
      out.step == CoverageResume && saved.Some? && run.head != saved.value.head
    ensures PendingDelta in out.decision.reasons ==> out.decision.blocked
  {
    PendingChoice(saved, run);
    var resolved: seq<Carried> :| IsActive(saved, run, resolved) && out == OutcomeFor(saved, run, resolved);
    var active := Remaining(resolved, run.carriedSuppressed);
    DecisionPending(saved, run, active, Deduped(active + NewCarried(saved, run)), out);
  }

  /** A resolution resume takes the call limit off the deferred queue, or empties it. */
  lemma ResumeDrains(s: State, run: Run, out: Outcome)
    requires IsRun(Some(s), run, out) && out.step == ResolutionResume
    requires AnswersDistinct(EvidenceOf(run, Choose(Some(s), run).report))
    requires run.config.policy.maxResolutionCalls >= 1
    ensures DeferredCount(out.state.active) <=
      if DeferredCount(s.active) <= run.config.policy.maxResolutionCalls then 0
      else DeferredCount(s.active) - run.config.policy.maxResolutionCalls
    ensures DeferredCount(out.state.active) < DeferredCount(s.active)
  {
    var choice := Choose(Some(s), run);
    var resolved: seq<Carried> :| IsActive(Some(s), run, resolved) && out == OutcomeFor(Some(s), run, resolved);
    var active, current := Remaining(resolved, run.carriedSuppressed), NewCarried(Some(s), run);
    RetryShrinksDeferred(EvidenceOf(run, choice.report), choice.report.reviewedPackIds,
                         CurrentDecision(run, choice.report).blockingFindings, s.active, resolved);
    RemainingMembers(resolved, run.carriedSuppressed);
    SavedDeferred(active, current);
    ResumeHasDeferred(s, run);
  }

  lemma SavedDeferred(active: seq<Carried>, current: seq<Carried>)
    requires forall i :: 0 <= i < |current| ==> current[i].resolutionReason == ""
    ensures DeferredCount(Deduped(active + current)) <= DeferredCount(active)
  {
    assert |BUDGET_REASON| == 78;
    NoneDeferred(current);
    DeferredConcat(active, current);
    DeferredDeduped(active + current);
  }

  lemma ResumeHasDeferred(s: State, run: Run)
    requires Choose(Some(s), run).step == ResolutionResume
    ensures DeferredCount(s.active) > 0
  {
    var c :| c in s.active && Deferred(c);
    SomeDeferred(s.active, c);
  }

  lemma {:induction false} SomeDeferred(cs: seq<Carried>, c: Carried)
    requires c in cs && Deferred(c)
    ensures DeferredCount(cs) > 0
    decreases |cs|
  {
    assert cs == cs[..|cs| - 1] + [cs[|cs| - 1]];
    if c in cs[..|cs| - 1] { SomeDeferred(cs[..|cs| - 1], c); }
  }

  /** `next` is what a resolution resume of `s` saves. */
  ghost predicate IsResume(s: State, run: Run, next: State) {
    exists out :: IsRun(Some(s), run, out) && out.step == ResolutionResume && out.state == next
  }

  /** Consecutive resolution resumes, each acting on the state the one before saved. */
  ghost predicate AreResumes(states: seq<State>, runs: seq<Run>, limit: nat) {
    && |states| == |runs| + 1
    && (forall i :: 0 <= i < |runs| ==> runs[i].config.policy.maxResolutionCalls == limit)
    && (forall i :: 0 <= i < |runs| ==> AnswersDistinct(EvidenceOf(runs[i], Choose(Some(states[i]), runs[i]).report)))
    && (forall i :: 0 <= i < |runs| ==> IsResume(states[i], runs[i], states[i + 1]))
  }

  /** A count that loses `limit` at every step, down to zero, is gone after enough steps. */
  lemma {:induction false} Drained(counts: seq<nat>, limit: nat, n: nat)
    requires n < |counts| && counts[0] <= n * limit
    requires forall i :: 0 <= i < n ==> counts[i + 1] <= if counts[i] <= limit then 0 else counts[i] - limit
    ensures counts[n] == 0
  {
    if n > 0 {
      assert n * limit == (n - 1) * limit + limit && (n - 1) * limit >= 0;
      assert counts[0 + 1] <= (n - 1) * limit;
      var rest := counts[1..];
      Drained(rest, limit, n - 1);
    }
  }

  lemma OneResume(s: State, run: Run, next: State)
    requires IsResume(s, run, next) && run.config.policy.maxResolutionCalls >= 1
    requires AnswersDistinct(EvidenceOf(run, Choose(Some(s), run).report))
    ensures DeferredCount(next.active) <=
      if DeferredCount(s.active) <= run.config.policy.maxResolutionCalls then 0
      else DeferredCount(s.active) - run.config.policy.maxResolutionCalls
  {
    var out :| IsRun(Some(s), run, out) && out.step == ResolutionResume && out.state == next;
    ResumeDrains(s, run, out);
  }

  /** `n` deferred findings are all handled within as many resumes as it takes `limit` at a time. */
  lemma DeferredAllHandled(states: seq<State>, runs: seq<Run>, limit: nat)
    requires limit >= 1 && AreResumes(states, runs, limit)
    requires DeferredCount(states[0].active) <= |runs| * limit
    ensures DeferredCount(states[|runs|].active) == 0
  {
    var counts: seq<nat> := seq(|states|, i requires 0 <= i < |states| => DeferredCount(states[i].active));
    forall i | 0 <= i < |runs| ensures counts[i + 1] <= if counts[i] <= limit then 0 else counts[i] - limit {
      OneResume(states[i], runs[i], states[i + 1]);
    }
    Drained(counts, limit, |runs|);
  }

  // ------------------------------------------------------------------ the gate

  class Gate {
    var state: Option<State>
    /** The reviews behind the saved state. */
    ghost var log: seq<Review>

    ghost predicate Valid()
      reads this
    {
      (state.Some? ==> Inv(state.value, log)) && TracedState(state) && Stamped(state)
    }

    constructor ()
      ensures Valid() && state.None?
    {
      state, log := None, [];
    }

    /** The state file was removed or can no longer be read. */
    method Forget()
      requires Valid()
      modifies this
      ensures Valid() && state.None?
    {
      state := None;
    }

    method PrePush(run: Run) returns (out: Outcome)
      requires Valid()
      modifies this
      ensures Valid() && state == Some(out.state) && log == NextLog(old(log), old(state), run)
      ensures IsRun(old(state), run, out)
      ensures !out.decision.blocked ==>
        && state.value.head == run.head && state.value.active == [] && !state.value.debt.Owed()
        && Covers(log, run.mergeBase, run.head) && forall i :: 0 <= i < |log| ==> CompleteAt(log, i)
    {
      var choice := Choose(state, run);
      var current := CurrentDecision(run, choice.report);
      var resolved: seq<Carried> := [];
      if choice.carries && state.Some? {
        resolved := ResolveIncremental(EvidenceOf(run, choice.report), choice.report.reviewedPackIds,
                                       current.blockingFindings, choice.step == ResolutionResume, state.value.active);
      }
      var active := Remaining(resolved, run.carriedSuppressed);
      var stateFindings := DedupeCarried(active + NewCarried(state, run));
      out := OutcomeOf(state, run, active, stateFindings);
      assert IsActive(state, run, resolved);
      LogKept(state, log, run, out);
      TracedKept(state, run, out);
      StampedKept(state, run, out);
      if !out.decision.blocked {
        AllowedPushIsCovered(state, log, run, out);
      }
      log := NextLog(log, state, run);
      state := Some(out.state);
    }
  }
}
