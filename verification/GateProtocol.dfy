/**
 The pre-push gate as a transition on its saved state (`pre_push` in cli/gate.py, with
 `check_incremental_eligibility` and `build_pre_push_state` in gate_retry.py), incremental retry on.

 Git, the reviewer, the resolver and local suppressions are oracles of the run. A log of reviews is
 kept beside the state: it says which commit ranges the reports behind the state cover.
 */
module GateProtocol {
  import opened GateCarried
  import opened GateTypes
  import opened Wrappers

  /** What an automatic coverage follow-up did: nothing, or more reviews of the same report. */
  datatype Followup = NotAttempted | Attempted(progressed: bool, findings: seq<Finding>, qualityGateFails: bool,
                                               partialSeverity: nat, reviewedPackIds: set<string>, generatedAt: nat)

  datatype Run = Run(
    root: string, baseRef: string, head: Sha, mergeBase: Sha, config: Config, jsonPath: string,
    previousReport: Option<Report>, previousHeadExists: bool, previousHeadIsAncestor: bool,
    fullReview: Report, deltaReview: Report, snapshotCaptured: bool, followup: Report -> Followup,
    evidence: Report -> Evidence,
    suppressed: Finding -> bool, carriedSuppressed: Carried -> bool)

  // ------------------------------------------------------------------ which report to act on

  predicate Eligible(s: State, run: Run) {
    && s.schema == SCHEMA && s.root == run.root && s.baseRef == run.baseRef && s.mergeBase == run.mergeBase
    && s.config == run.config && run.previousHeadExists && run.previousHeadIsAncestor
  }

  predicate SnapshotMatches(s: State, r: Report) {
    r.snapshot.Some? && s.report.snapshot == r.snapshot && StampFits(s.baseRef, s.mergeBase, s.head, r)
  }

  /** The stamp of a report says what the report is a review of, up to this head. */
  predicate StampFits(baseRef: string, mergeBase: Sha, head: Sha, r: Report) {
    && r.snapshot.Some?
    && var snapshot := r.snapshot.value;
       && snapshot.mode == r.diffMode && snapshot.baseRef == r.diffBase && snapshot.head == head
       && match snapshot.mode
          case Base => snapshot.baseRef == baseRef && snapshot.mergeBase == Some(mergeBase) && snapshot.rangeStart.None?
          case Patch => snapshot.rangeStart.Some? && snapshot.mergeBase.None?
                        && r.diffBase == snapshot.rangeStart.value + "..HEAD"
  }

  /** The saved coverage debt can be resumed from the report on disk. */
  predicate CanResumeCoverage(s: State, run: Run) {
    && run.previousReport.Some?
    && var r := run.previousReport.value;
       && s.debt.Owed() && r.root == s.root && s.jsonPath == run.jsonPath
       && SnapshotMatches(s, r) && r.generatedAt >= s.report.generatedAt && r.config == run.config
       && s.report.contextPacks != map[] && r.contextPacks == s.report.contextPacks
       && s.report.reviewedPackIds <= r.reviewedPackIds
  }

  function EvidenceOf(run: Run, r: Report): Evidence {
    run.evidence(r).(callLimit := run.config.policy.maxResolutionCalls, changed := r.changedPaths)
  }

  /** Some budget-deferred finding can be retried on exactly the saved report. */
  predicate CanResumeResolution(s: State, run: Run) {
    && run.previousReport == Some(s.report)
    && run.head == s.head && s.config == run.config && s.report.config == run.config
    && s.jsonPath == run.jsonPath && s.report.root == s.root
    && exists c :: c in s.active && Deferred(c)
         && (ReviewedPackOmits(EvidenceOf(run, s.report), s.report.reviewedPackIds,
                               Evaluate(s.report, run.config.policy).blockingFindings, c)
             || DeltaMayResolve(EvidenceOf(run, s.report), c))
  }

  /** The pipeline stamps its reports with what they reviewed; the stamp is validated against HEAD. */
  function FullReport(run: Run): Report {
    run.fullReview.(root := run.root, config := run.config, diffMode := Base, diffBase := run.baseRef,
                    snapshot := if run.snapshotCaptured
                                then Some(Snapshot(Base, run.baseRef, Some(run.mergeBase), None, run.head)) else None)
  }

  function DeltaReport(run: Run, from: Sha): Report {
    run.deltaReview.(root := run.root, config := run.config, diffMode := Patch, diffBase := from + "..HEAD",
                     snapshot := if run.snapshotCaptured
                                 then Some(Snapshot(Patch, from + "..HEAD", None, Some(from), run.head)) else None)
  }

  /** A continued report keeps its identity: snapshot, diff and context packs. */
  function Continue(r: Report, f: Followup): Report {
    match f
    case NotAttempted => r
    case Attempted(_, findings, quality, partial, reviewed, at) =>
      r.(eligibleFindings := findings, qualityGateFails := quality, partialSeverity := partial,
         reviewedPackIds := reviewed, generatedAt := at)
  }

  datatype Step = Full | Incremental | CoverageResume | ResolutionResume

  /** `carries` says whether the saved carried findings take part; `pending` that newer commits than the
      resumed report wait for review. */
  datatype Choice = Choice(step: Step, report: Report, carries: bool, pending: bool)

  function Choose(saved: Option<State>, run: Run): Choice {
    if saved.None? || !Eligible(saved.value, run) then Reviewed(Full, FullReport(run), false, run)
    else
      var s := saved.value;
      if s.debt.Owed() && !CanResumeCoverage(s, run) then Reviewed(Full, FullReport(run), true, run)
      else if CanResumeCoverage(s, run) then
        var r, pending := run.previousReport.value, run.head != s.head;
        var f := run.followup(r);
        if pending && !(f.Attempted? && f.progressed) then Choice(Full, FullReport(run), true, false)
        else Choice(CoverageResume, Continue(r, f), true, pending)
      else if CanResumeResolution(s, run) then Reviewed(ResolutionResume, s.report, true, run)
      else Reviewed(Incremental, DeltaReport(run, s.head), true, run)
  }

  function Reviewed(step: Step, r: Report, carries: bool, run: Run): Choice {
    Choice(step, Continue(r, run.followup(r)), carries, false)
  }

  // ------------------------------------------------------------------ the decision

  function Unsuppressed(findings: seq<Finding>, suppressed: Finding -> bool): seq<Finding> {
    if findings == [] then []
    else
      var init, last := Unsuppressed(findings[..|findings| - 1], suppressed), findings[|findings| - 1];
      if suppressed(last) then init else init + [last]
  }

  function Remaining(cs: seq<Carried>, suppressed: Carried -> bool): seq<Carried> {
    if cs == [] then []
    else
      var init, last := Remaining(cs[..|cs| - 1], suppressed), cs[|cs| - 1];
      if suppressed(last) then init else init + [last]
  }

  function CurrentDecision(run: Run, r: Report): Decision {
    var d := Evaluate(r, run.config.policy);
    ReplaceBlocking(d, Unsuppressed(d.blockingFindings, run.suppressed), run.config.policy)
  }

  /** Carried findings not already reported, once per fingerprint. */
  function NewlyCarried(fingerprint: Finding -> string, known: set<string>, cs: seq<Carried>): seq<Finding> {
    if cs == [] then []
    else
      var init, last := NewlyCarried(fingerprint, known, cs[..|cs| - 1]), cs[|cs| - 1].finding;
      if fingerprint(last) in known || fingerprint(last) in (set f | f in init :: fingerprint(f)) then init
      else init + [last]
  }

  function Combine(fingerprint: Finding -> string, current: Decision, active: seq<Carried>,
                   debt: CoverageDebt): Decision {
    var carried := NewlyCarried(fingerprint, set f | f in current.blockingFindings :: fingerprint(f), active);
    var reasons := current.reasons
                 + (if carried != [] then [CarriedFindings(|carried|)] else [])
                 + (if debt.Owed() then [CarriedDebt(debt.reasons)] else []);
    Decision(reasons != [], reasons, current.blockingFindings + carried,
             current.qualityGateFailed || debt.qualityGateFailed, current.partialBlocked || debt.partialBlocked)
  }

  function BlockPending(d: Decision): Decision {
    d.(blocked := true, reasons := d.reasons + [PendingDelta])
  }

  /** The part of a pack id before its first `#`: the path of the file the pack is about. */
  function PackPath(id: string): string {
    if id == "" || id[0] == '#' then "" else [id[0]] + PackPath(id[1..])
  }

  lemma {:induction false} PackPathOf(path: string, id: string)
    requires '#' !in path && path + "#" <= id
    ensures PackPath(id) == path && '#' in id
    decreases |path|
  {
    assert id[|path|] == (path + "#")[|path|] == '#';
    if path != "" {
      assert id[0] == (path + "#")[0] == path[0];
      assert path[1..] + "#" == (path + "#")[1..] <= id[1..];
      assert path == [path[0]] + path[1..];
      PackPathOf(path[1..], id[1..]);
    }
  }

  /** `relevant_files_for_finding` */
  function RelevantFiles(r: Report, f: Finding): set<string> {
    {f.file} + (if '#' in f.contextPackId then {PackPath(f.contextPackId)} else {})
    + (if f.contextPackId in r.contextPacks then r.contextPacks[f.contextPackId].files else {}) - {""}
  }

  /** The carried finding knows the file of its pack, and carries no other pack than its own. */
  predicate Traced(c: Carried) {
    var id := c.finding.contextPackId;
    && (c.packId.Some? ==> c.packId.value == id)
    && ('#' in id && PackPath(id) != "" ==> PackPath(id) in c.relevantFiles)
  }

  ghost predicate AllTraced(cs: seq<Carried>) {
    forall c :: c in cs ==> Traced(c)
  }

  /** A saved report that is stamped is stamped for the range the state is saved for. */
  ghost predicate Stamped(saved: Option<State>) {
    saved.Some? && saved.value.report.snapshot.Some? ==>
      StampFits(saved.value.baseRef, saved.value.mergeBase, saved.value.head, saved.value.report)
  }

  ghost predicate TracedState(saved: Option<State>) {
    saved.Some? ==> AllTraced(saved.value.active)
  }

  function AsCarried(r: Report, findings: seq<Finding>): (cs: seq<Carried>)
    ensures |cs| == |findings|
    ensures forall i :: 0 <= i < |cs| ==>
      cs[i].finding == findings[i] && cs[i].resolutionReason == "" && Traced(cs[i])
  {
    seq(|findings|, i requires 0 <= i < |findings| =>
      Carried(findings[i],
              if findings[i].contextPackId in r.contextPacks then Some(findings[i].contextPackId) else None,
              RelevantFiles(r, findings[i]), StillPresent, ""))
  }

  /** The files a fix of a finding may show in: its own, the one its pack is about, and all its pack names. */
  lemma RelevantMeaning(r: Report, f: Finding, path: string)
    ensures path in RelevantFiles(r, f) <==>
      path != "" && (path == f.file || ('#' in f.contextPackId && path == PackPath(f.contextPackId))
                     || (f.contextPackId in r.contextPacks && path in r.contextPacks[f.contextPackId].files))
  {
  }

  /** A reported finding is carried on under its pack if the report knows the pack. */
  lemma CarriedPack(r: Report, findings: seq<Finding>, i: nat)
    requires i < |findings|
    ensures var c := AsCarried(r, findings)[i];
            && (c.packId.Some? <==> findings[i].contextPackId in r.contextPacks) && c.status == StillPresent
            && c.relevantFiles == RelevantFiles(r, findings[i])
  {
  }

  datatype Outcome = Outcome(step: Step, decision: Decision, state: State)

  function CarriedDebtOf(saved: Option<State>, choice: Choice): CoverageDebt {
    if saved.Some? && choice.step in {Incremental, ResolutionResume} && saved.value.debt.Owed() then saved.value.debt
    else NO_DEBT
  }

  function SavedHead(saved: Option<State>, choice: Choice, run: Run): Sha {
    if choice.step == CoverageResume && saved.Some? then saved.value.head else run.head
  }

  /** The outcome once the carried findings that stay active are known. */
  function OutcomeOf(saved: Option<State>, run: Run, active: seq<Carried>, deduped: seq<Carried>): Outcome {
    var choice := Choose(saved, run);
    var current, debt := CurrentDecision(run, choice.report), CarriedDebtOf(saved, choice);
    var decision := Combine(EvidenceOf(run, choice.report).fingerprint, current, active, debt);
    Outcome(choice.step,
            if choice.pending then BlockPending(decision) else decision,
            State(SCHEMA, run.root, run.baseRef, run.mergeBase, SavedHead(saved, choice, run), run.config, run.jsonPath,
                  choice.report, deduped, MergeDebt(debt, DebtOf(choice.report, current))))
  }

  ghost predicate IsActive(saved: Option<State>, run: Run, resolved: seq<Carried>) {
    var choice := Choose(saved, run);
    if choice.carries && saved.Some? then
      IsIncrementalResolution(EvidenceOf(run, choice.report), choice.report.reviewedPackIds,
                              CurrentDecision(run, choice.report).blockingFindings, choice.step == ResolutionResume,
                              saved.value.active, resolved)
    else resolved == []
  }

  /** One run of the gate. */
  ghost predicate IsRun(saved: Option<State>, run: Run, out: Outcome) {
    exists resolved :: IsActive(saved, run, resolved) && out == OutcomeFor(saved, run, resolved)
  }

  ghost function OutcomeFor(saved: Option<State>, run: Run, resolved: seq<Carried>): Outcome {
    var active := Remaining(resolved, run.carriedSuppressed);
    OutcomeOf(saved, run, active, Deduped(active + NewCarried(saved, run)))
  }

  function NewCarried(saved: Option<State>, run: Run): seq<Carried> {
    var r := Choose(saved, run).report;
    AsCarried(r, CurrentDecision(run, r).blockingFindings)
  }

  // ------------------------------------------------------------------ the review log

  /** `report` reviewed the commits `from..to`. */
  datatype Review = Review(from: Sha, to: Sha, report: Report)

  function NextLog(log: seq<Review>, saved: Option<State>, run: Run): seq<Review> {
    var choice := Choose(saved, run);
    match choice.step
    case Full => [Review(run.mergeBase, run.head, choice.report)]
    case Incremental =>
      if saved.Some? then log + [Review(saved.value.head, run.head, choice.report)] else log
    case _ =>
      if log != [] then log[..|log| - 1] + [log[|log| - 1].(report := choice.report)] else log
  }

  /** The reviews follow one another without a gap from `from` to `to`. */
  ghost predicate Covers(log: seq<Review>, from: Sha, to: Sha) {
    && log != [] && log[0].from == from && log[|log| - 1].to == to
    && forall i :: 0 <= i < |log| - 1 ==> log[i].to == log[i + 1].from
  }

  /** The report's own stamp, if it has one, names the range it is logged for. */
  ghost predicate StampAgrees(review: Review) {
    review.report.snapshot.Some? ==>
      var snapshot := review.report.snapshot.value;
      && snapshot.head == review.to
      && review.from == match snapshot.mode
                        case Base => (if snapshot.mergeBase.Some? then snapshot.mergeBase.value else review.from)
                        case Patch => (if snapshot.rangeStart.Some? then snapshot.rangeStart.value else review.from)
  }

  ghost predicate CompleteAt(log: seq<Review>, i: nat) {
    i < |log| && Complete(log[i].report.config.policy, log[i].report)
  }

  /** What the saved state promises about the reviews behind it. */
  ghost predicate Inv(s: State, log: seq<Review>) {
    && Covers(log, s.mergeBase, s.head)
    && (forall i :: 0 <= i < |log| ==> log[i].report.config == s.config && StampAgrees(log[i]))
    && (forall i :: 0 <= i < |log| - 1 ==> CompleteAt(log, i))
    && (CompleteAt(log, |log| - 1) <==> !s.debt.Owed())
    && log[|log| - 1].report == s.report
    && UniqueKeys(s.active) && s.schema == SCHEMA
  }

  // ------------------------------------------------------------------ facts about one choice

  /** With debt saved and the state eligible, the run resumes the report that left the debt or reviews
      everything again; it never reviews only the new commits. */
  lemma DebtForcesResumeOrFull(s: State, log: seq<Review>, run: Run)
    requires Inv(s, log) && Eligible(s, run) && s.debt.Owed()
    ensures Choose(Some(s), run).step in {CoverageResume, Full}
    ensures Choose(Some(s), run).carries
    ensures Choose(Some(s), run).step == CoverageResume ==>
      && run.previousReport.Some? && run.previousReport.value.snapshot == s.report.snapshot
      && Choose(Some(s), run).report.snapshot == s.report.snapshot
      && StampAgrees(Review(log[|log| - 1].from, log[|log| - 1].to, Choose(Some(s), run).report))
    ensures CanResumeCoverage(s, run) && run.head == s.head ==> Choose(Some(s), run).step == CoverageResume
    ensures !CanResumeCoverage(s, run) ==> Choose(Some(s), run).step == Full
  {
    var last := log[|log| - 1];
    assert StampAgrees(last);
  }

  /** Which step a run takes, as conditions on the saved state and the run that exclude one another. */
  lemma StepMeaning(s: State, run: Run)
    ensures Choose(Some(s), run).carries <==> Eligible(s, run)
    ensures Choose(Some(s), run).step == Incremental
      <==> Eligible(s, run) && !s.debt.Owed() && !CanResumeResolution(s, run)
    ensures Choose(Some(s), run).step == ResolutionResume
      <==> Eligible(s, run) && !s.debt.Owed() && CanResumeResolution(s, run)
    ensures Choose(Some(s), run).step == CoverageResume <==>
      Eligible(s, run) && CanResumeCoverage(s, run)
      && (run.head == s.head || (run.followup(run.previousReport.value).Attempted?
                                 && run.followup(run.previousReport.value).progressed))
  {
  }

  /** A saved state takes part exactly when its schema is current, it is of this repository, base and merge base
      under the same configuration, and its head is still there and an ancestor of the new one. */
  lemma WhenStateCarries(saved: Option<State>, run: Run)
    ensures Choose(saved, run).carries <==>
      saved.Some? && saved.value.schema == "pre-push-state/v2" && saved.value.root == run.root
      && saved.value.baseRef == run.baseRef && saved.value.mergeBase == run.mergeBase
      && saved.value.config == run.config && run.previousHeadExists && run.previousHeadIsAncestor
    ensures !Choose(saved, run).carries ==> Choose(saved, run).step == Full
  {
  }

  /** The branch that carries saved debt into the decision is never taken. */
  lemma DebtNeverCarried(saved: Option<State>, run: Run)
    ensures CarriedDebtOf(saved, Choose(saved, run)) == NO_DEBT
  {
  }

  /** A coverage review is only resumed from a report that is no older than the saved one, of the same packs, and
      has reviewed whatever that had reviewed. */
  lemma ResumedFrom(s: State, run: Run)
    requires Choose(Some(s), run).step == CoverageResume
    ensures run.previousReport.Some?
    ensures var r := run.previousReport.value;
            && r.generatedAt >= s.report.generatedAt && r.contextPacks == s.report.contextPacks != map[]
            && (forall id :: id in s.report.reviewedPackIds ==> id in r.reviewedPackIds)
            && r.root == s.root && s.jsonPath == run.jsonPath && r.config == run.config
            && r.snapshot == s.report.snapshot && r.snapshot.Some?
  {
  }

  /** What a review reports is what its follow-up made of it. */
  lemma FollowupUsed(saved: Option<State>, run: Run, r: Report)
    requires Choose(saved, run).step != CoverageResume
    requires Choose(saved, run).step == Full ==> r == FullReport(run)
    requires Choose(saved, run).step == Incremental ==> r == DeltaReport(run, saved.value.head)
    requires Choose(saved, run).step == ResolutionResume ==> r == saved.value.report
    requires Choose(saved, run).step == Full && saved.Some? && Eligible(saved.value, run) ==>
      !CanResumeCoverage(saved.value, run)
    ensures var f, after := run.followup(r), Choose(saved, run).report;
            && (f.NotAttempted? ==> after == r)
            && (f.Attempted? ==> after.eligibleFindings == f.findings && after.reviewedPackIds == f.reviewedPackIds
                                 && after.qualityGateFails == f.qualityGateFails
                                 && after.partialSeverity == f.partialSeverity)
  {
  }

  /** Whenever a snapshot was captured, a new review is stamped with it. */
  lemma CapturedIsStamped(saved: Option<State>, run: Run)
    requires run.snapshotCaptured
    ensures Choose(saved, run).step == Full ==>
      Choose(saved, run).report.snapshot == Some(Snapshot(Base, run.baseRef, Some(run.mergeBase), None, run.head))
    ensures Choose(saved, run).step == Incremental ==>
      && saved.Some?
      && Choose(saved, run).report.snapshot
         == Some(Snapshot(Patch, saved.value.head + "..HEAD", None, Some(saved.value.head), run.head))
  {
  }

  /** A new review is stamped with the range it is logged for. */
  lemma NewReviewStamp(saved: Option<State>, run: Run)
    ensures Choose(saved, run).step == Full ==> StampAgrees(Review(run.mergeBase, run.head, Choose(saved, run).report))
    ensures Choose(saved, run).step == Incremental ==>
      saved.Some? && StampAgrees(Review(saved.value.head, run.head, Choose(saved, run).report))
  {
  }

  lemma StampContinued(baseRef: string, mergeBase: Sha, head: Sha, r: Report, f: Followup)
    ensures StampFits(baseRef, mergeBase, head, Continue(r, f)) <==> StampFits(baseRef, mergeBase, head, r)
    ensures Continue(r, f).snapshot == r.snapshot
  {
  }

  /** A resumed coverage acts on the report as its follow-up left it. */
  lemma ResumedReport(saved: Option<State>, run: Run)
    requires Choose(saved, run).step == CoverageResume && run.previousReport.Some?
    requires run.followup(run.previousReport.value).Attempted?
    ensures var f, r := run.followup(run.previousReport.value), Choose(saved, run).report;
            && r.eligibleFindings == f.findings && r.reviewedPackIds == f.reviewedPackIds
            && r.qualityGateFails == f.qualityGateFails && r.partialSeverity == f.partialSeverity
  {
  }

  /** The report a run acts on is stamped for the range it is saved for. */
  lemma ChoiceStamped(saved: Option<State>, run: Run)
    requires Stamped(saved) && Choose(saved, run).report.snapshot.Some?
    ensures StampFits(run.baseRef, run.mergeBase, SavedHead(saved, Choose(saved, run), run), Choose(saved, run).report)
  {
    var choice := Choose(saved, run);
    match choice.step
    case Full =>
      StampContinued(run.baseRef, run.mergeBase, run.head, FullReport(run), run.followup(FullReport(run)));
    case Incremental =>
      var r := DeltaReport(run, saved.value.head);
      StampContinued(run.baseRef, run.mergeBase, run.head, r, run.followup(r));
    case CoverageResume =>
      var r := run.previousReport.value;
      StampContinued(run.baseRef, run.mergeBase, saved.value.head, r, run.followup(r));
    case ResolutionResume =>
      var r := saved.value.report;
      StampContinued(run.baseRef, run.mergeBase, run.head, r, run.followup(r));
  }

  lemma ResumesKeepStamp(s: State, run: Run)
    ensures Choose(Some(s), run).step in {CoverageResume, ResolutionResume} ==>
      Choose(Some(s), run).report.snapshot == s.report.snapshot
  {
  }

  lemma ChoiceConfig(saved: Option<State>, run: Run)
    ensures Choose(saved, run).report.config == run.config
    ensures Choose(saved, run).step != Full ==> saved.Some? && Eligible(saved.value, run) && Choose(saved, run).carries
    ensures Choose(saved, run).step in {Incremental, ResolutionResume} ==> !saved.value.debt.Owed()
    ensures Choose(saved, run).step == ResolutionResume ==> saved.value.head == run.head
    ensures Choose(saved, run).pending <==> Choose(saved, run).step == CoverageResume && saved.value.head != run.head
  {
  }
}
