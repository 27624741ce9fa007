/** What the decision of a gate run means: when it blocks, and what it lists. */
module GateDecisions {
  import opened GateCarried
  import opened GateProtocol
  import opened GateTypes
  import opened Wrappers

  lemma {:induction false} UnsuppressedSubset(findings: seq<Finding>, suppressed: Finding -> bool)
    ensures |Unsuppressed(findings, suppressed)| <= |findings|
    ensures forall f :: f in Unsuppressed(findings, suppressed) <==> f in findings && !suppressed(f)
    decreases |findings|
  {
    if findings != [] {
      UnsuppressedSubset(findings[..|findings| - 1], suppressed);
      assert findings == findings[..|findings| - 1] + [findings[|findings| - 1]];
    }
  }

  /** A finding blocks a run exactly when the policy may block on it, it is at or above the threshold and it is
      not suppressed. */
  ghost predicate Blocks(run: Run, r: Report, f: Finding) {
    var threshold := run.config.policy.minSeverity;
    f in r.eligibleFindings && threshold.Some? && f.severity <= threshold.value && !run.suppressed(f)
  }

  lemma CurrentBlockingMeaning(run: Run, r: Report)
    ensures forall f :: f in CurrentDecision(run, r).blockingFindings <==> Blocks(run, r, f)
  {
    BlockingMeaning(r.eligibleFindings, run.config.policy.minSeverity);
    UnsuppressedSubset(Evaluate(r, run.config.policy).blockingFindings, run.suppressed);
  }

  /** The current decision blocks exactly when findings remain or coverage falls short. */
  lemma CurrentDecisionMeaning(run: Run, r: Report)
    requires r.config == run.config
    ensures CurrentDecision(run, r).reasons != []
      <==> CurrentDecision(run, r).blockingFindings != [] || !Complete(run.config.policy, r)
    ensures CurrentDecision(run, r).qualityGateFailed || CurrentDecision(run, r).partialBlocked
      <==> !Complete(run.config.policy, r)
  {
    var p := run.config.policy;
    UnsuppressedSubset(Evaluate(r, p).blockingFindings, run.suppressed);
    ReplacedMeaning(r, p, Unsuppressed(Evaluate(r, p).blockingFindings, run.suppressed));
  }

  ghost predicate Covered(fingerprint: Finding -> string, known: set<string>, fs: seq<Finding>, f: Finding) {
    fingerprint(f) in known || exists i :: 0 <= i < |fs| && fingerprint(fs[i]) == fingerprint(f)
  }

  /** The carried findings added to a decision are active and not reported, each once. */
  lemma {:induction false} NewlyCarriedOnce(fingerprint: Finding -> string, known: set<string>, cs: seq<Carried>)
    ensures var fs := NewlyCarried(fingerprint, known, cs);
            && (forall f :: f in fs ==> fingerprint(f) !in known && exists c :: c in cs && c.finding == f)
            && (forall i, j :: 0 <= i < j < |fs| ==> fingerprint(fs[i]) != fingerprint(fs[j]))
    decreases |cs|
  {
    if cs != [] {
      var rest, last := cs[..|cs| - 1], cs[|cs| - 1];
      NewlyCarriedOnce(fingerprint, known, rest);
      var init := NewlyCarried(fingerprint, known, rest);
      forall f | f in NewlyCarried(fingerprint, known, cs) ensures exists c :: c in cs && c.finding == f {
        if f in init {
          var c :| c in rest && c.finding == f;
          assert c in cs;
        } else {
          assert last in cs;
        }
      }
    }
  }

  /** Every active carried finding is reported already or among them. */
  lemma {:induction false} NewlyCarriedMeaning(fingerprint: Finding -> string, known: set<string>, cs: seq<Carried>)
    ensures forall c :: c in cs ==> Covered(fingerprint, known, NewlyCarried(fingerprint, known, cs), c.finding)
    decreases |cs|
  {
    if cs != [] {
      var rest, last := cs[..|cs| - 1], cs[|cs| - 1];
      NewlyCarriedMeaning(fingerprint, known, rest);
      assert cs == rest + [last];
      var init, fs := NewlyCarried(fingerprint, known, rest), NewlyCarried(fingerprint, known, cs);
      forall c | c in cs ensures Covered(fingerprint, known, fs, c.finding) {
        if c in rest && fingerprint(c.finding) !in known {
          var i :| 0 <= i < |init| && fingerprint(init[i]) == fingerprint(c.finding);
          assert fs[i] == init[i];
        } else if c == last && fs != init {
          assert fs[|init|] == last.finding;
        }
      }
    }
  }

  /** Whatever is still carried blocks the run: it is among the blocking findings of the decision. */
  lemma ActiveFindingsBlock(fingerprint: Finding -> string, current: Decision, active: seq<Carried>,
                            debt: CoverageDebt, c: Carried)
    requires c in active
    ensures Combine(fingerprint, current, active, debt).blocked
            || exists f :: f in current.blockingFindings && fingerprint(f) == fingerprint(c.finding)
    ensures exists f ::
      f in Combine(fingerprint, current, active, debt).blockingFindings && fingerprint(f) == fingerprint(c.finding)
  {
    var known := set f | f in current.blockingFindings :: fingerprint(f);
    var fs := NewlyCarried(fingerprint, known, active);
    NewlyCarriedMeaning(fingerprint, known, active);
    assert Covered(fingerprint, known, fs, c.finding);
    if fingerprint(c.finding) !in known {
      var i :| 0 <= i < |fs| && fingerprint(fs[i]) == fingerprint(c.finding);
      assert fs[i] in Combine(fingerprint, current, active, debt).blockingFindings;
    }
  }

  /** Without carried debt a decision is clear exactly when nothing blocks and nothing is carried. */
  lemma CombineMeaning(run: Run, r: Report, fingerprint: Finding -> string, active: seq<Carried>)
    requires r.config == run.config
    ensures var current := CurrentDecision(run, r);
            Combine(fingerprint, current, active, NO_DEBT).blocked <==>
              !Complete(run.config.policy, r) || current.blockingFindings != [] || active != []
  {
    CurrentDecisionMeaning(run, r);
    var current := CurrentDecision(run, r);
    if current.blockingFindings == [] && active != [] {
      NewlyCarriedMeaning(fingerprint, {}, active);
      assert (set f | f in current.blockingFindings :: fingerprint(f)) == {};
      assert Covered(fingerprint, {}, NewlyCarried(fingerprint, {}, active), active[0].finding);
    }
  }

  /** What a run saves as carried is empty exactly when nothing blocks it and nothing stayed active. */
  lemma SavedEmpty(active: seq<Carried>, current: seq<Carried>)
    ensures Deduped(active + current) == [] <==> active == [] && current == []
  {
    var all := active + current;
    DedupeMeaning(all);
    if all != [] { assert HasKey(all, KeyOf(all[0].finding)); }
  }

  /** A run allows the push exactly when its report is complete, it saves no carried finding and no newer
      commits are pending. */
  lemma AllowedMeaning(saved: Option<State>, run: Run, out: Outcome)
    requires IsRun(saved, run, out)
    ensures !out.decision.blocked <==>
      Complete(run.config.policy, out.state.report) && out.state.active == [] && !Choose(saved, run).pending
  {
    var choice := Choose(saved, run);
    var resolved: seq<Carried> :| IsActive(saved, run, resolved) && out == OutcomeFor(saved, run, resolved);
    var active := Remaining(resolved, run.carriedSuppressed);
    ChoiceConfig(saved, run);
    DebtNeverCarried(saved, run);
    CombineMeaning(run, choice.report, EvidenceOf(run, choice.report).fingerprint, active);
    SavedEmpty(active, NewCarried(saved, run));
  }

  /** None of the carried findings stays active: what came of them in this run is all suppressed. */
  ghost predicate NothingActive(saved: Option<State>, run: Run, out: Outcome) {
    exists resolved :: IsActive(saved, run, resolved) && out == OutcomeFor(saved, run, resolved)
                       && forall c :: c in resolved ==> run.carriedSuppressed(c)
  }

  lemma {:induction false} RemainingEmpty(cs: seq<Carried>, suppressed: Carried -> bool)
    ensures Remaining(cs, suppressed) == [] <==> forall c :: c in cs ==> suppressed(c)
    decreases |cs|
  {
    if cs != [] {
      RemainingEmpty(cs[..|cs| - 1], suppressed);
      assert cs == cs[..|cs| - 1] + [cs[|cs| - 1]];
    }
  }

  /** A run allows the push if and only if the report is complete, every finding the policy may block on and at
      or above the threshold is suppressed, so is whatever stays of the carried ones, and no newer commits
      are pending. */
  lemma AllowedExactly(saved: Option<State>, run: Run, out: Outcome)
    requires IsRun(saved, run, out)
    ensures !out.decision.blocked <==>
      Complete(run.config.policy, out.state.report) && !Choose(saved, run).pending
      && NothingActive(saved, run, out) && forall f :: !Blocks(run, out.state.report, f)
  {
    AllowedMeaning(saved, run, out);
    var r := Choose(saved, run).report;
    CurrentBlockingMeaning(run, r);
    var current := CurrentDecision(run, r).blockingFindings;
    assert current == [] <==> forall f :: !Blocks(run, r, f) by {
      if current != [] { assert Blocks(run, r, current[0]); }
    }
    if NothingActive(saved, run, out) {
      var resolved :| IsActive(saved, run, resolved) && out == OutcomeFor(saved, run, resolved)
                      && forall c :: c in resolved ==> run.carriedSuppressed(c);
      RemainingEmpty(resolved, run.carriedSuppressed);
      SavedEmpty(Remaining(resolved, run.carriedSuppressed), NewCarried(saved, run));
    } else {
      var resolved: seq<Carried> :| IsActive(saved, run, resolved) && out == OutcomeFor(saved, run, resolved);
      RemainingEmpty(resolved, run.carriedSuppressed);
      SavedEmpty(Remaining(resolved, run.carriedSuppressed), NewCarried(saved, run));
    }
  }
}
