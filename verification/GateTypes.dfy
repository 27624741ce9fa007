/**
 Values of the pre-push gate (models.py, gates.py and gate_retry.py). Fingerprints are injective in
 the model: where the program compares hashes of a value, the model compares the values.
 */
module GateTypes {
  import opened Wrappers

  type Sha = string

  /** 0 is critical, then high, medium, low; anything above is unknown. */
  type Severity = nat

  datatype Finding = Finding(severity: Severity, title: string, file: string, line: Option<int>,
                             failureMode: string, contextPackId: string)

  /** What makes two carried findings the same (`finding_key`). */
  datatype FindingKey = FindingKey(severity: Severity, title: string, file: string, line: Option<int>,
                                   failureMode: string)

  function KeyOf(f: Finding): FindingKey {
    FindingKey(f.severity, f.title, f.file, f.line, f.failureMode)
  }

  /** Findings have the same key exactly when they differ in nothing but the pack they come from. */
  lemma KeyMeaning(a: Finding, b: Finding)
    ensures KeyOf(a) == KeyOf(b) <==> a.(contextPackId := "") == b.(contextPackId := "")
  {
  }

  datatype Status = StillPresent | Uncertain

  /** `relevantFiles` are the paths a fix may show in, as known when the finding was reported. */
  datatype Carried = Carried(finding: Finding, packId: Option<string>, relevantFiles: set<string>, status: Status,
                             resolutionReason: string)

  /** A context pack: `files` are all the files it names, `content` stands for the rest. */
  datatype Pack = Pack(files: set<string>, content: string)

  datatype Mode = Base | Patch

  /** The Git identity of what a report reviewed: `mergeBase..head` or `rangeStart..head`. */
  datatype Snapshot = Snapshot(mode: Mode, baseRef: string, mergeBase: Option<Sha>, rangeStart: Option<Sha>, head: Sha)

  datatype Policy = Policy(minSeverity: Option<Severity>, failOnQualityGate: bool, failOnPartial: Option<nat>,
                           maxResolutionCalls: nat)

  /** Review configuration, reviewer scope and gate policy: all that the config fingerprint covers. */
  datatype Config = Config(policy: Policy, rest: string)

  /** `partialSeverity` ranks none, minor, major, critical as 0 to 3. `eligibleFindings` are the findings
      the policy may block on, before the severity threshold. */
  datatype Report = Report(root: string, generatedAt: nat, config: Config, snapshot: Option<Snapshot>,
                           diffMode: Mode, diffBase: string,
                           eligibleFindings: seq<Finding>, qualityGateFails: bool, partialSeverity: nat,
                           changedPaths: set<string>, contextPacks: map<string, Pack>,
                           reviewedPackIds: set<string>)

  datatype Reason = BlockingFindings(count: nat) | QualityGateFailed | PartialCoverage(severity: nat)
                  | CarriedFindings(count: nat) | CarriedDebt(details: seq<Reason>) | PendingDelta

  datatype Decision = Decision(blocked: bool, reasons: seq<Reason>, blockingFindings: seq<Finding>,
                               qualityGateFailed: bool, partialBlocked: bool)

  datatype CoverageDebt = CoverageDebt(qualityGateFailed: bool, partialBlocked: bool, reasons: seq<Reason>,
                                       partialSeverity: nat, qualityGateFails: bool)
  {
    predicate Owed() {
      qualityGateFailed || partialBlocked
    }
  }

  const NO_DEBT := CoverageDebt(false, false, [], 0, false)

  const SCHEMA := "pre-push-state/v2"

  datatype State = State(schema: string, root: string, baseRef: string, mergeBase: Sha, head: Sha, config: Config,
                         jsonPath: string, report: Report, active: seq<Carried>, debt: CoverageDebt)

  // ------------------------------------------------------------------ evaluating a report

  function Blocking(findings: seq<Finding>, threshold: Option<Severity>): seq<Finding> {
    if threshold.None? || findings == [] then []
    else
      var init, last := Blocking(findings[..|findings| - 1], threshold), findings[|findings| - 1];
      if last.severity <= threshold.value then init + [last] else init
  }

  /** Exactly the findings at or above the threshold. */
  lemma {:induction false} BlockingMeaning(findings: seq<Finding>, threshold: Option<Severity>)
    ensures forall f ::
      f in Blocking(findings, threshold) <==> f in findings && threshold.Some? && f.severity <= threshold.value
    decreases |findings|
  {
    if threshold.Some? && findings != [] {
      BlockingMeaning(findings[..|findings| - 1], threshold);
      assert findings == findings[..|findings| - 1] + [findings[|findings| - 1]];
    }
  }

  predicate QualityBlocks(p: Policy, r: Report) {
    p.failOnQualityGate && r.qualityGateFails
  }

  predicate PartialBlocks(p: Policy, r: Report) {
    p.failOnPartial.Some? && p.failOnPartial.value > 0 && r.partialSeverity >= p.failOnPartial.value
  }

  /** The report leaves no coverage debt. */
  predicate Complete(p: Policy, r: Report) {
    !QualityBlocks(p, r) && !PartialBlocks(p, r)
  }

  function Evaluate(r: Report, p: Policy): (d: Decision)
    ensures d.blocked <==> d.blockingFindings != [] || d.qualityGateFailed || d.partialBlocked
    ensures d.qualityGateFailed || d.partialBlocked <==> !Complete(p, r)
    ensures d.blockingFindings != [] ==> p.minSeverity.Some?
    ensures forall x :: x in d.reasons ==> !x.CarriedFindings? && !x.CarriedDebt? && !x.PendingDelta?
    ensures d.blocked <==> d.reasons != []
  {
    var blocking := Blocking(r.eligibleFindings, p.minSeverity);
    var quality, partial := QualityBlocks(p, r), PartialBlocks(p, r);
    var reasons := (if blocking != [] && p.minSeverity.Some? then [BlockingFindings(|blocking|)] else [])
                 + (if quality then [QualityGateFailed] else [])
                 + (if partial then [PartialCoverage(r.partialSeverity)] else []);
    Decision(reasons != [], reasons, blocking, quality, partial)
  }

  function WithoutBlockingReason(reasons: seq<Reason>): (r: seq<Reason>)
    ensures forall x :: x in r <==> x in reasons && !x.BlockingFindings?
  {
    if reasons == [] then []
    else
      var init, last := WithoutBlockingReason(reasons[..|reasons| - 1]), reasons[|reasons| - 1];
      assert reasons == reasons[..|reasons| - 1] + [last];
      if last.BlockingFindings? then init else init + [last]
  }

  /** The decision once suppressed findings are taken out. */
  function ReplaceBlocking(d: Decision, findings: seq<Finding>, p: Policy): Decision {
    var rest := WithoutBlockingReason(d.reasons);
    var reasons := if findings != [] && p.minSeverity.Some? then [BlockingFindings(|findings|)] + rest else rest;
    Decision(reasons != [], reasons, findings, d.qualityGateFailed, d.partialBlocked)
  }

  lemma {:induction false} OnlyBlockingReasons(reasons: seq<Reason>)
    requires forall i :: 0 <= i < |reasons| ==> reasons[i].BlockingFindings?
    ensures WithoutBlockingReason(reasons) == []
    decreases |reasons|
  {
    if reasons != [] { OnlyBlockingReasons(reasons[..|reasons| - 1]); }
  }

  /** Replacing the blocking findings leaves reasons exactly for the findings given and for missing coverage. */
  lemma ReplacedMeaning(r: Report, p: Policy, findings: seq<Finding>)
    requires findings != [] ==> p.minSeverity.Some?
    ensures ReplaceBlocking(Evaluate(r, p), findings, p).reasons != [] <==> findings != [] || !Complete(p, r)
  {
    var d := Evaluate(r, p);
    var rest := WithoutBlockingReason(d.reasons);
    if !Complete(p, r) {
      var reason := if QualityBlocks(p, r) then QualityGateFailed else PartialCoverage(r.partialSeverity);
      assert reason in d.reasons && reason in rest;
    } else {
      OnlyBlockingReasons(d.reasons);
    }
  }

  /** What the reasons of an evaluation say about coverage. */
  lemma EvaluatedReasons(r: Report, p: Policy)
    ensures QualityGateFailed in Evaluate(r, p).reasons <==> p.failOnQualityGate && r.qualityGateFails
    ensures PartialCoverage(r.partialSeverity) in Evaluate(r, p).reasons
      <==> p.failOnPartial.Some? && p.failOnPartial.value > 0 && r.partialSeverity >= p.failOnPartial.value
  {
  }

  lemma OtherReasonsStay(d: Decision, findings: seq<Finding>, p: Policy, x: Reason)
    requires !x.BlockingFindings?
    ensures x in ReplaceBlocking(d, findings, p).reasons <==> x in d.reasons
  {
    assert x in WithoutBlockingReason(d.reasons) <==> x in d.reasons;
  }

  function DebtOf(r: Report, d: Decision): CoverageDebt {
    CoverageDebt(d.qualityGateFailed, d.partialBlocked,
                 if d.qualityGateFailed || d.partialBlocked then d.reasons else [],
                 r.partialSeverity, r.qualityGateFails)
  }

  function Missing(reasons: seq<Reason>, known: seq<Reason>): seq<Reason> {
    if reasons == [] then []
    else
      var init, last := Missing(reasons[..|reasons| - 1], known), reasons[|reasons| - 1];
      if last in known then init else init + [last]
  }

  function MergeDebt(carried: CoverageDebt, current: CoverageDebt): CoverageDebt {
    var quality := carried.qualityGateFailed || current.qualityGateFailed;
    var partial := carried.partialBlocked || current.partialBlocked;
    CoverageDebt(quality, partial,
                 if quality || partial then carried.reasons + Missing(current.reasons, carried.reasons) else [],
                 if current.partialSeverity != 0 then current.partialSeverity else carried.partialSeverity,
                 current.qualityGateFails || carried.qualityGateFails)
  }

  lemma {:induction false} NothingKnown(reasons: seq<Reason>)
    ensures Missing(reasons, []) == reasons
    decreases |reasons|
  {
    if reasons != [] {
      NothingKnown(reasons[..|reasons| - 1]);
      assert reasons == reasons[..|reasons| - 1] + [reasons[|reasons| - 1]];
    }
  }

  lemma {:induction false} MissingMembers(reasons: seq<Reason>, known: seq<Reason>)
    ensures forall x :: x in Missing(reasons, known) <==> x in reasons && x !in known
    decreases |reasons|
  {
    if reasons != [] {
      MissingMembers(reasons[..|reasons| - 1], known);
      assert reasons == reasons[..|reasons| - 1] + [reasons[|reasons| - 1]];
    }
  }

  lemma {:induction false} NothingMissing(reasons: seq<Reason>, known: seq<Reason>)
    requires forall i :: 0 <= i < |reasons| ==> reasons[i] in known
    ensures Missing(reasons, known) == []
    decreases |reasons|
  {
    if reasons != [] { NothingMissing(reasons[..|reasons| - 1], known); }
  }

  /** A merged debt is owed exactly when one of the two is. Then it gives the reasons of both: the carried
      ones as they were, and after them only what those do not say. */
  lemma MergeMeaning(carried: CoverageDebt, current: CoverageDebt)
    ensures var merged := MergeDebt(carried, current);
            && (merged.Owed() <==> carried.Owed() || current.Owed())
            && (merged.qualityGateFails <==> carried.qualityGateFails || current.qualityGateFails)
            && (merged.Owed() ==>
                  && (forall x :: x in merged.reasons <==> x in carried.reasons || x in current.reasons)
                  && carried.reasons <= merged.reasons
                  && forall x :: x in merged.reasons[|carried.reasons|..] ==> x !in carried.reasons)
            && (!merged.Owed() ==> merged.reasons == [])
  {
    MissingMembers(current.reasons, carried.reasons);
    var merged := MergeDebt(carried, current);
    if merged.Owed() {
      assert merged.reasons[|carried.reasons|..] == Missing(current.reasons, carried.reasons);
    }
  }

  /** Merging the same debt again changes nothing. */
  lemma MergeTwice(debt: CoverageDebt)
    requires debt.Owed() || debt.reasons == []
    ensures MergeDebt(debt, debt) == debt
  {
    NothingMissing(debt.reasons, debt.reasons);
    assert debt.reasons + [] == debt.reasons;
  }

  /** Merging into no debt adds nothing and loses nothing. */
  lemma MergeNoDebt(r: Report, d: Decision)
    ensures MergeDebt(NO_DEBT, DebtOf(r, d)) == DebtOf(r, d)
  {
    NothingKnown(d.reasons);
    NothingKnown([]);
  }
}
