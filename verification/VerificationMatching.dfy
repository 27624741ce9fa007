/**
 When two verification decisions are about the same finding (`verification_decisions_match` and what it
 calls in findings.py). Path and pack normalisation, the convention that pairs tests with sources, and
 the comparison of texts by tokens are functions the rule is given.
 */
module VerificationMatching {
  import opened Wrappers

  datatype Finding = Finding(severity: string, title: string, file: string, line: Option<int>, failureMode: string,
                             evidence: string, suggestedFix: string, packId: string,
                             origins: map<string, set<string>>)

  /** `id` is the identity of the entry as an object; `replaced` says a terminal decision replaced it. */
  datatype Verification = Verification(id: nat, reviewer: string, finding: Finding, snapshotId: Option<string>,
                                       superseded: bool, replaced: bool)

  type Matching = (Verification, Verification) -> bool

  datatype Rules = Rules(normalFile: string -> string, normalPack: string -> string,
                         testScopes: (string, string) -> bool, similarTexts: (Finding, Finding) -> bool)

  datatype SubjectIdentity = SubjectIdentity(title: string, file: string, line: Option<int>, failureMode: string,
                                             evidence: string, packId: string)

  datatype DecisionIdentity = DecisionIdentity(severity: string, subject: SubjectIdentity)

  function SubjectOf(r: Rules, f: Finding): SubjectIdentity {
    SubjectIdentity(f.title, r.normalFile(f.file), f.line, f.failureMode, f.evidence, r.normalPack(f.packId))
  }

  function DecisionOf(r: Rules, f: Finding): DecisionIdentity {
    DecisionIdentity(f.severity, SubjectOf(r, f))
  }

  predicate LinesClose(a: int, b: int) {
    -3 <= a - b <= 3
  }

  /** Same file, packs that do not differ, and lines that are both missing or close. */
  predicate ScopeCompatible(r: Rules, a: Finding, b: Finding) {
    && r.normalFile(a.file) == r.normalFile(b.file)
    && (a.packId == "" || b.packId == "" || r.normalPack(a.packId) == r.normalPack(b.packId))
    && match (a.line, b.line)
       case (Some(x), Some(y)) => LinesClose(x, y)
       case _ => a.line == b.line
  }

  predicate ConsolidationScopeCompatible(r: Rules, a: Finding, b: Finding) {
    if r.normalFile(a.file) == r.normalFile(b.file) then
      match (a.line, b.line)
      case (Some(x), Some(y)) => LinesClose(x, y)
      case _ => false
    else
      r.testScopes(r.normalFile(a.file), r.normalFile(b.file))
  }

  predicate Duplicates(r: Rules, a: Finding, b: Finding) {
    || DecisionOf(r, a) == DecisionOf(r, b)
    || (a.severity == b.severity && ConsolidationScopeCompatible(r, a, b) && r.similarTexts(a, b))
  }

  predicate SubjectMatches(r: Rules, a: Finding, b: Finding) {
    ScopeCompatible(r, a, b) && (SubjectOf(r, a) == SubjectOf(r, b) || Duplicates(r, a, b))
  }

  /** The packs one reviewer produced a finding from: recorded ones, or else the finding's own. */
  function OriginPacks(f: Finding, reviewer: string): set<string> {
    if reviewer in f.origins then f.origins[reviewer] - {""}
    else if f.packId != "" then {f.packId}
    else {}
  }

  predicate ShareOrigin(r: Rules, a: Finding, b: Finding, reviewer: string) {
    exists p, q :: p in OriginPacks(a, reviewer) && q in OriginPacks(b, reviewer) && r.normalPack(p) == r.normalPack(q)
  }

  predicate CrossPackOrigin(r: Rules, a: Verification, b: Verification) {
    var x, y := a.finding, b.finding;
    && a.reviewer == b.reviewer && r.normalPack(x.packId) != r.normalPack(y.packId)
    && ConsolidationScopeCompatible(r, x, y)
    && (a.reviewer in x.origins || b.reviewer in y.origins)
    && ShareOrigin(r, x, y, a.reviewer)
    && x.severity == y.severity && x.title == y.title && x.failureMode == y.failureMode && x.evidence == y.evidence
  }

  predicate DecisionsMatch(r: Rules, a: Verification, b: Verification) {
    if a.snapshotId.None? || b.snapshotId.None? then
      SubjectOf(r, a.finding) == SubjectOf(r, b.finding) || CrossPackOrigin(r, a, b)
    else if a.snapshotId == b.snapshotId then
      DecisionOf(r, a.finding) == DecisionOf(r, b.finding)
    else
      CrossPackOrigin(r, a, b) || SubjectMatches(r, a.finding, b.finding)
  }

  function MatchingOf(r: Rules): Matching {
    (a: Verification, b: Verification) => DecisionsMatch(r, a, b)
  }

  /** Decisions of two snapshots on a finding that moved match exactly when it moved at most three lines, its texts
      being similar. */
  lemma MovedFinding(r: Rules, f: Finding, reviewer: string, lines: (int, int), ids: (string, string))
    requires ids.0 != ids.1 && r.similarTexts(f.(line := Some(lines.0)), f.(line := Some(lines.1)))
    ensures var a := Verification(0, reviewer, f.(line := Some(lines.0)), Some(ids.0), false, false);
            var b := Verification(1, reviewer, f.(line := Some(lines.1)), Some(ids.1), false, false);
            DecisionsMatch(r, a, b) <==> -3 <= lines.0 - lines.1 <= 3
  {
  }

  /** Findings of different snapshots in the same pack: in other files or at lines too far apart they never match,
      and of different severity only if all else is the same. */
  lemma OtherScope(r: Rules, a: Verification, b: Verification)
    requires a.snapshotId.Some? && b.snapshotId.Some? && a.snapshotId != b.snapshotId
    requires r.normalPack(a.finding.packId) == r.normalPack(b.finding.packId)
    ensures r.normalFile(a.finding.file) != r.normalFile(b.finding.file) ==> !DecisionsMatch(r, a, b)
    ensures a.finding.line.Some? != b.finding.line.Some? ==> !DecisionsMatch(r, a, b)
    ensures a.finding.severity != b.finding.severity && DecisionsMatch(r, a, b) ==>
      a.finding.title == b.finding.title && a.finding.line == b.finding.line
      && a.finding.failureMode == b.finding.failureMode && a.finding.evidence == b.finding.evidence
  {
  }

  /** A finding reported on a test and on the source it pairs with, from two packs with one origin: the decisions
      match exactly when the program pairs the two files. */
  lemma TestAndSource(r: Rules, f: Finding, reviewer: string, files: (string, string), packs: (string, string),
                      origin: string)
    requires r.normalFile(files.0) != r.normalFile(files.1) && r.normalPack(packs.0) != r.normalPack(packs.1)
    requires origin != ""
    ensures var a := Verification(0, reviewer, f.(file := files.0, packId := packs.0,
                                                  origins := map[reviewer := {origin}]), None, false, false);
            var b := Verification(1, reviewer, f.(file := files.1, packId := packs.1,
                                                  origins := map[reviewer := {origin}]), None, false, false);
            DecisionsMatch(r, a, b) <==> r.testScopes(r.normalFile(files.0), r.normalFile(files.1))
  {
    var x := f.(file := files.0, packId := packs.0, origins := map[reviewer := {origin}]);
    var y := f.(file := files.1, packId := packs.1, origins := map[reviewer := {origin}]);
    assert origin in OriginPacks(x, reviewer) && origin in OriginPacks(y, reviewer);
  }

  /** Findings of different snapshots that differ in nothing but the pack, which one of them does not name: their
      decisions match if the texts are similar and a line is given. */
  lemma PackNotNamed(r: Rules, f: Finding, reviewer: string, pack: string, ids: (string, string))
    requires ids.0 != ids.1 && f.line.Some? && r.similarTexts(f.(packId := ""), f.(packId := pack))
    ensures var a := Verification(0, reviewer, f.(packId := ""), Some(ids.0), false, false);
            var b := Verification(1, reviewer, f.(packId := pack), Some(ids.1), false, false);
            DecisionsMatch(r, a, b)
  {
  }

  /** Findings of different snapshots, of one file and pack but without lines: their decisions match exactly when
      the texts agree. */
  lemma WithoutLines(r: Rules, a: Verification, b: Verification)
    requires a.snapshotId.Some? && b.snapshotId.Some? && a.snapshotId != b.snapshotId
    requires a.finding.line.None? && b.finding.line.None?
    requires a.finding.file == b.finding.file && a.finding.packId == b.finding.packId
    ensures DecisionsMatch(r, a, b) <==>
      a.finding.title == b.finding.title && a.finding.failureMode == b.finding.failureMode
      && a.finding.evidence == b.finding.evidence
  {
  }

  /** A finding whose origins were not recorded comes from its own pack. */
  lemma OwnPackIsOrigin(r: Rules, f: Finding, reviewer: string, pack: string, merged: string, origins: set<string>)
    requires f.line.Some? && r.normalPack(pack) != r.normalPack(merged)
    ensures var a := Verification(0, reviewer, f.(packId := pack, origins := map[]), None, false, false);
            var b := Verification(1, reviewer, f.(packId := merged, origins := map[reviewer := origins]), None, false,
                                  false);
            DecisionsMatch(r, a, b) <==>
              pack != "" && exists p :: p in origins && p != "" && r.normalPack(p) == r.normalPack(pack)
  {
    var x, y := f.(packId := pack, origins := map[]), f.(packId := merged, origins := map[reviewer := origins]);
    assert OriginPacks(x, reviewer) == if pack != "" then {pack} else {};
    assert forall p :: p in OriginPacks(y, reviewer) <==> p in origins && p != "";
  }

  /** One reviewer's decisions, without snapshots, on a finding reported from two packs that differ: they match
      exactly when some pack the one came from is some pack the other came from. */
  lemma CrossPackExactly(r: Rules, f: Finding, reviewer: string, packA: string, packB: string, originsA: set<string>,
                         originsB: set<string>)
    requires f.line.Some? && r.normalPack(packA) != r.normalPack(packB)
    ensures var a := Verification(0, reviewer, f.(packId := packA, origins := map[reviewer := originsA]), None, false,
                                  false);
            var b := Verification(1, reviewer, f.(packId := packB, origins := map[reviewer := originsB]), None, false,
                                  false);
            DecisionsMatch(r, a, b) <==>
              exists p, q :: p in originsA && q in originsB && p != "" && q != "" && r.normalPack(p) == r.normalPack(q)
  {
  }

  /** Outside of snapshots, decisions of two reviewers never match across packs, and without recorded origins none
      do. */
  lemma NoCrossPack(r: Rules, a: Verification, b: Verification)
    requires r.normalPack(a.finding.packId) != r.normalPack(b.finding.packId)
    requires a.snapshotId.None? || b.snapshotId.None?
    requires a.reviewer != b.reviewer || (a.reviewer !in a.finding.origins && b.reviewer !in b.finding.origins)
    ensures !DecisionsMatch(r, a, b)
  {
  }
}
