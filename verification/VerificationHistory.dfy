/**
 The history of verification decisions (findings.py): which decision is in force for each finding.
 The history is folded for any relation between decisions; the program's own is `MatchingOf`.
 */
module VerificationHistory {
  import opened Ordering
  import opened Wrappers
  import opened VerificationMatching

  /** The later decision takes the earlier one's place. */
  predicate Displaces(m: Matching, earlier: Verification, later: Verification) {
    earlier.reviewer == later.reviewer && m(earlier, later)
  }

  ghost predicate DistinctEntries(h: seq<Verification>) {
    forall i, j :: 0 <= i < j < |h| ==> h[i].id != h[j].id
  }

  // ------------------------------------------------------------------ what being active means

  /** Not superseded, and no later decision that is not superseded displaces it. */
  ghost predicate InForce(h: seq<Verification>, m: Matching, i: nat) {
    && i < |h| && !h[i].superseded
    && forall j :: i < j < |h| && !h[j].superseded ==> !Displaces(m, h[i], h[j])
  }

  /** The entries in force among the first `n`, in order. */
  ghost function EntriesInForce(h: seq<Verification>, m: Matching, n: nat): seq<Verification>
    requires n <= |h|
  {
    if n == 0 then []
    else if InForce(h, m, n - 1) then EntriesInForce(h, m, n - 1) + [h[n - 1]]
    else EntriesInForce(h, m, n - 1)
  }

  /** The active decisions of a history. */
  ghost function Active(h: seq<Verification>, m: Matching): seq<Verification> {
    EntriesInForce(h, m, |h|)
  }

  // ------------------------------------------------------------------ the fold

  function Undisplaced(active: seq<Verification>, m: Matching, next: Verification): seq<Verification> {
    if active == [] then []
    else
      var init, last := Undisplaced(active[..|active| - 1], m, next), active[|active| - 1];
      if Displaces(m, last, next) then init else init + [last]
  }

  function Step(active: seq<Verification>, m: Matching, next: Verification): seq<Verification> {
    if next.superseded then active else Undisplaced(active, m, next) + [next]
  }

  /** The fold started from `active`. */
  function Fold(active: seq<Verification>, m: Matching, h: seq<Verification>): seq<Verification> {
    if h == [] then active else Step(Fold(active, m, h[..|h| - 1]), m, h[|h| - 1])
  }

  lemma UndisplacedSnoc(active: seq<Verification>, m: Matching, v: Verification, next: Verification)
    ensures Undisplaced(active + [v], m, next) ==
            if Displaces(m, v, next) then Undisplaced(active, m, next) else Undisplaced(active, m, next) + [v]
  {
    assert (active + [v])[..|active|] == active;
  }

  /** One more decision removes from the entries in force exactly those it displaces. */
  lemma {:induction false} InForceSnoc(h: seq<Verification>, m: Matching, next: Verification, n: nat)
    requires n <= |h|
    ensures EntriesInForce(h + [next], m, n) ==
            if next.superseded then EntriesInForce(h, m, n) else Undisplaced(EntriesInForce(h, m, n), m, next)
    decreases n
  {
    if n > 0 {
      InForceSnoc(h, m, next, n - 1);
      var l := h + [next];
      assert l[n - 1] == h[n - 1] && l[|h|] == next;
      assert InForce(l, m, n - 1) <==> InForce(h, m, n - 1) && (next.superseded || !Displaces(m, h[n - 1], next)) by {
        assert forall j :: n - 1 < j < |h| ==> l[j] == h[j];
        assert InForce(l, m, n - 1) ==> (next.superseded || !Displaces(m, l[n - 1], l[|h|]));
      }
      if InForce(h, m, n - 1) {
        UndisplacedSnoc(EntriesInForce(h, m, n - 1), m, h[n - 1], next);
      }
    }
  }

  /** The fold over a history computes the entries in force. */
  lemma {:induction false} FoldIsActive(h: seq<Verification>, m: Matching)
    ensures Fold([], m, h) == Active(h, m)
    decreases |h|
  {
    if h != [] {
      var init, last := h[..|h| - 1], h[|h| - 1];
      FoldIsActive(init, m);
      InForceSnoc(init, m, last, |init|);
      assert h == init + [last];
    }
  }

  method ActiveVerifications(h: seq<Verification>, m: Matching) returns (active: seq<Verification>)
    ensures active == Active(h, m)
  {
    active := [];
    for i := 0 to |h|
      invariant active == Fold([], m, h[..i])
    {
      assert h[..i + 1][..i] == h[..i];
      if h[i].superseded {
        continue;
      }
      active := Undisplaced(active, m, h[i]);
      active := active + [h[i]];
    }
    assert h[..|h|] == h;
    FoldIsActive(h, m);
  }

  // ------------------------------------------------------------------ idempotence and resumption

  /** A list no entry of which is superseded or displaced by a later one. */
  ghost predicate Settled(active: seq<Verification>, m: Matching) {
    && (forall i :: 0 <= i < |active| ==> !active[i].superseded)
    && (forall i, j :: 0 <= i < j < |active| ==> !Displaces(m, active[i], active[j]))
  }

  lemma {:induction false} UndisplacedSettled(active: seq<Verification>, m: Matching, next: Verification)
    requires Settled(active, m)
    ensures Settled(Undisplaced(active, m, next), m)
    ensures forall v :: v in Undisplaced(active, m, next) <==> v in active && !Displaces(m, v, next)
    decreases |active|
  {
    if active != [] {
      var init, last := active[..|active| - 1], active[|active| - 1];
      UndisplacedSettled(init, m, next);
      assert active == init + [last];
      var kept := Undisplaced(init, m, next);
      forall i | 0 <= i < |kept| ensures !Displaces(m, kept[i], last) {
        assert kept[i] in init;
      }
    }
  }

  lemma {:induction false} FoldSettled(active: seq<Verification>, m: Matching, h: seq<Verification>)
    requires Settled(active, m)
    ensures Settled(Fold(active, m, h), m)
    decreases |h|
  {
    if h != [] {
      var before := Fold(active, m, h[..|h| - 1]);
      FoldSettled(active, m, h[..|h| - 1]);
      UndisplacedSettled(before, m, h[|h| - 1]);
      var kept := Undisplaced(before, m, h[|h| - 1]);
      assert forall i :: 0 <= i < |kept| ==> kept[i] in kept;
    }
  }

  lemma {:induction false} NothingDisplaced(active: seq<Verification>, m: Matching, next: Verification)
    requires forall i :: 0 <= i < |active| ==> !Displaces(m, active[i], next)
    ensures Undisplaced(active, m, next) == active
    decreases |active|
  {
    if active != [] {
      NothingDisplaced(active[..|active| - 1], m, next);
      assert active == active[..|active| - 1] + [active[|active| - 1]];
    }
  }

  lemma {:induction false} SettledIsFixed(active: seq<Verification>, m: Matching)
    requires Settled(active, m)
    ensures Fold([], m, active) == active
    decreases |active|
  {
    if active != [] {
      var init, last := active[..|active| - 1], active[|active| - 1];
      SettledIsFixed(init, m);
      NothingDisplaced(init, m, last);
      assert active == init + [last];
    }
  }

  lemma {:induction false} FoldConcat(active: seq<Verification>, m: Matching, a: seq<Verification>,
                                      b: seq<Verification>)
    ensures Fold(active, m, a + b) == Fold(Fold(active, m, a), m, b)
    decreases |b|
  {
    if b == [] {
      assert a + b == a;
    } else {
      assert (a + b)[..|a + b| - 1] == a + b[..|b| - 1];
      FoldConcat(active, m, a, b[..|b| - 1]);
    }
  }

  /** Folding the active decisions again changes nothing. */
  lemma ActiveIdempotent(h: seq<Verification>, m: Matching)
    ensures Active(Active(h, m), m) == Active(h, m)
    ensures Settled(Active(h, m), m)
  {
    FoldIsActive(h, m);
    FoldSettled([], m, h);
    SettledIsFixed(Active(h, m), m);
    FoldIsActive(Active(h, m), m);
  }

  /** A history may be replaced by its active decisions before more are added. */
  lemma ActiveResumes(a: seq<Verification>, b: seq<Verification>, m: Matching)
    ensures Active(Active(a, m) + b, m) == Active(a + b, m)
  {
    FoldIsActive(a, m);
    ActiveIdempotent(a, m);
    FoldIsActive(Active(a, m), m);
    FoldIsActive(Active(a, m) + b, m);
    FoldIsActive(a + b, m);
    FoldConcat([], m, Active(a, m), b);
    FoldConcat([], m, a, b);
  }

  // ------------------------------------------------------------------ what does not matter

  function OfReviewer(reviewer: string): Verification -> bool {
    (v: Verification) => v.reviewer == reviewer
  }

  predicate Counts(v: Verification) {
    !v.superseded
  }

  lemma {:induction false} UndisplacedFiltered(active: seq<Verification>, m: Matching, next: Verification,
                                               keep: Verification -> bool)
    requires keep(next) || forall v: Verification :: keep(v) ==> !Displaces(m, v, next)
    ensures Filter(keep, Undisplaced(active, m, next)) ==
            if keep(next) then Undisplaced(Filter(keep, active), m, next) else Filter(keep, active)
    decreases |active|
  {
    if active != [] {
      var init, last := active[..|active| - 1], active[|active| - 1];
      UndisplacedFiltered(init, m, next, keep);
      var kept, passed := Undisplaced(init, m, next), Filter(keep, init);
      assert (kept + [last])[..|kept|] == kept && (passed + [last])[..|passed|] == passed;
    }
  }

  /** What one reviewer's decisions come to does not depend on those of others. */
  lemma ReviewersApart(h: seq<Verification>, m: Matching, reviewer: string)
    ensures Filter(OfReviewer(reviewer), Active(h, m)) == Active(Filter(OfReviewer(reviewer), h), m)
  {
    FoldIsActive(h, m);
    FoldIsActive(Filter(OfReviewer(reviewer), h), m);
    FoldFiltered(h, m, OfReviewer(reviewer));
  }

  lemma {:induction false} FoldFiltered(h: seq<Verification>, m: Matching, keep: Verification -> bool)
    requires forall v, next: Verification :: keep(v) && !keep(next) ==> !Displaces(m, v, next)
    ensures Filter(keep, Fold([], m, h)) == Fold([], m, Filter(keep, h))
    decreases |h|
  {
    if h != [] {
      var init, last := h[..|h| - 1], h[|h| - 1];
      FoldFiltered(init, m, keep);
      UndisplacedFiltered(Fold([], m, init), m, last, keep);
      var passed, kept := Filter(keep, init), Undisplaced(Fold([], m, init), m, last);
      assert (passed + [last])[..|passed|] == passed && (kept + [last])[..|kept|] == kept;
    }
  }

  /** Superseded decisions have no say. */
  lemma {:induction false} SupersededIgnored(h: seq<Verification>, m: Matching)
    ensures Active(h, m) == Active(Filter(Counts, h), m)
    decreases |h|
  {
    FoldIsActive(h, m);
    FoldIsActive(Filter(Counts, h), m);
    if h != [] {
      var init, last := h[..|h| - 1], h[|h| - 1];
      var passed := Filter(Counts, init);
      SupersededIgnored(init, m);
      FoldIsActive(init, m);
      FoldIsActive(passed, m);
      assert (passed + [last])[..|passed|] == passed;
    }
  }

  // ------------------------------------------------------------------ active successors

  /** All entries of the history that are not superseded are of `among`. */
  ghost predicate Drawn(h: seq<Verification>, among: iset<Verification>) {
    forall i :: 0 <= i < |h| && !h[i].superseded ==> h[i] in among
  }

  ghost predicate TransitiveOn(m: Matching, among: iset<Verification>) {
    forall a, b, c :: a in among && b in among && c in among && !a.superseded && !b.superseded && !c.superseded ==>
      Displaces(m, a, b) && Displaces(m, b, c) ==> Displaces(m, a, c)
  }

  /** Some decision in force after entry `i` displaces it. */
  ghost predicate DisplacedByActive(h: seq<Verification>, m: Matching, i: nat) {
    i < |h| && exists j: nat :: i < j && InForce(h, m, j) && Displaces(m, h[i], h[j])
  }

  /** An entry out of force that is not superseded has an active successor, in every history of `among`. */
  ghost predicate SuccessorsActive(m: Matching, among: iset<Verification>) {
    forall h: seq<Verification>, i: nat {:trigger DisplacedByActive(h, m, i), Drawn(h, among)} ::
      Drawn(h, among) && i < |h| && !h[i].superseded && !InForce(h, m, i) ==> DisplacedByActive(h, m, i)
  }

  /** For a relation that is transitive among the entries, a displaced entry has an active successor. */
  lemma {:induction false} ActiveSuccessor(h: seq<Verification>, m: Matching, among: iset<Verification>, i: nat)
    requires TransitiveOn(m, among) && Drawn(h, among)
    requires i < |h| && !h[i].superseded && !InForce(h, m, i)
    ensures DisplacedByActive(h, m, i)
    decreases |h| - i
  {
    var j :| i < j < |h| && !h[j].superseded && Displaces(m, h[i], h[j]);
    if !InForce(h, m, j) {
      ActiveSuccessor(h, m, among, j);
      var k: nat :| j < k && InForce(h, m, k) && Displaces(m, h[j], h[k]);
      assert Displaces(m, h[i], h[k]);
    }
  }

  /** Of a chain of three the first has no active successor unless the last displaces it too. */
  lemma Chain(m: Matching, a: Verification, b: Verification, c: Verification)
    requires !a.superseded && !b.superseded && !c.superseded
    requires Displaces(m, a, b) && Displaces(m, b, c)
    ensures !InForce([a, b, c], m, 0) && (DisplacedByActive([a, b, c], m, 0) <==> Displaces(m, a, c))
  {
    var h := [a, b, c];
    assert h[0] == a && h[1] == b && h[2] == c;
    assert !InForce(h, m, 1) && InForce(h, m, 2);
  }

  /** Displaced entries always have an active successor if and only if the relation is transitive. */
  lemma SuccessorsIffTransitive(m: Matching, among: iset<Verification>)
    ensures SuccessorsActive(m, among) <==> TransitiveOn(m, among)
  {
    if TransitiveOn(m, among) {
      forall h: seq<Verification>, i: nat
        | Drawn(h, among) && i < |h| && !h[i].superseded && !InForce(h, m, i)
        ensures DisplacedByActive(h, m, i)
      {
        ActiveSuccessor(h, m, among, i);
      }
    }
    if SuccessorsActive(m, among) {
      forall a, b, c | a in among && b in among && c in among && !a.superseded && !b.superseded && !c.superseded &&
                       Displaces(m, a, b) && Displaces(m, b, c)
        ensures Displaces(m, a, c)
      {
        Chain(m, a, b, c);
        assert Drawn([a, b, c], among);
      }
    }
  }

  // ------------------------------------------------------------------ the program's own relation

  /** The decisions of one review snapshot. */
  ghost function OfSnapshot(id: string): iset<Verification> {
    iset v: Verification | v.snapshotId == Some(id)
  }

  /** Decisions without a snapshot whose reviewer recorded no origin packs. */
  ghost function WithoutSnapshot(): iset<Verification> {
    iset v: Verification | v.snapshotId.None? && v.reviewer !in v.finding.origins
  }

  /** Within one review snapshot, and without any, displaced decisions have an active successor. */
  lemma OneSnapshotSuccessors(r: Rules, id: string)
    ensures SuccessorsActive(MatchingOf(r), OfSnapshot(id))
    ensures SuccessorsActive(MatchingOf(r), WithoutSnapshot())
  {
    SuccessorsIffTransitive(MatchingOf(r), OfSnapshot(id));
    SuccessorsIffTransitive(MatchingOf(r), WithoutSnapshot());
  }

  /** `f` decided again in a snapshot where it has another severity, with a decision of another snapshot
      (or of none) in between: the program's relation links the neighbours and not the ends. */
  lemma NoActiveSuccessor(r: Rules, f: Finding, reviewer: string, severity: string, id: string, between: Option<string>)
    requires severity != f.severity && between != Some(id)
    ensures var a := Verification(0, reviewer, f, Some(id), false, false);
            var b := Verification(1, reviewer, f, between, false, false);
            var c := Verification(2, reviewer, f.(severity := severity), Some(id), false, false);
            !InForce([a, b, c], MatchingOf(r), 0) && !DisplacedByActive([a, b, c], MatchingOf(r), 0)
  {
    var a := Verification(0, reviewer, f, Some(id), false, false);
    var b := Verification(1, reviewer, f, between, false, false);
    var c := Verification(2, reviewer, f.(severity := severity), Some(id), false, false);
    Chain(MatchingOf(r), a, b, c);
  }

  /** Three reviews of a finding that moves down three lines each time: the third decision is too far from
      the first to displace it. The texts are the same, so `r` must find them similar. */
  lemma DriftingFinding(r: Rules, f: Finding, reviewer: string, line: int, ids: (string, string, string))
    requires ids.0 != ids.1 && ids.1 != ids.2 && ids.0 != ids.2
    requires forall x, y :: r.similarTexts(f.(line := x), f.(line := y))
    ensures var a := Verification(0, reviewer, f.(line := Some(line)), Some(ids.0), false, false);
            var b := Verification(1, reviewer, f.(line := Some(line + 3)), Some(ids.1), false, false);
            var c := Verification(2, reviewer, f.(line := Some(line + 6)), Some(ids.2), false, false);
            !InForce([a, b, c], MatchingOf(r), 0) && !DisplacedByActive([a, b, c], MatchingOf(r), 0)
  {
    var a := Verification(0, reviewer, f.(line := Some(line)), Some(ids.0), false, false);
    var b := Verification(1, reviewer, f.(line := Some(line + 3)), Some(ids.1), false, false);
    var c := Verification(2, reviewer, f.(line := Some(line + 6)), Some(ids.2), false, false);
    Chain(MatchingOf(r), a, b, c);
  }

  // ------------------------------------------------------------------ unresolved and historical entries

  predicate Contains(vs: seq<Verification>, id: nat) {
    exists i :: 0 <= i < |vs| && vs[i].id == id
  }

  predicate FromHistory(h: seq<Verification>, vs: seq<Verification>) {
    forall k :: 0 <= k < |vs| ==> Contains(h, vs[k].id)
  }

  /** Position of the entry with this identity; the program keeps it in a dictionary. */
  function Position(h: seq<Verification>, id: nat): (p: nat)
    requires Contains(h, id)
    ensures p < |h| && h[p].id == id
  {
    if h[|h| - 1].id == id then |h| - 1
    else
      assert h[..|h| - 1] + [h[|h| - 1]] == h;
      Position(h[..|h| - 1], id)
  }

  function Inactive(h: seq<Verification>, active: seq<Verification>): seq<Verification> {
    if h == [] then []
    else
      var init, last := Inactive(h[..|h| - 1], active), h[|h| - 1];
      if Contains(active, last.id) then init else init + [last]
  }

  predicate Answers(h: seq<Verification>, m: Matching, answer: Verification, i: nat)
    requires i < |h| && Contains(h, answer.id)
  {
    answer.reviewer == h[i].reviewer && Position(h, answer.id) > i && m(h[i], answer)
  }

  /** A newer active decision of the same reviewer is about entry `i`. */
  predicate Answered(h: seq<Verification>, m: Matching, active: seq<Verification>, i: nat)
    requires i < |h|
    requires FromHistory(h, active)
  {
    exists k :: 0 <= k < |active| && Answers(h, m, active[k], i)
  }

  predicate Pending(h: seq<Verification>, m: Matching, active: seq<Verification>, i: nat)
    requires i < |h|
    requires FromHistory(h, active)
  {
    h[i].superseded && !h[i].replaced && !Answered(h, m, active, i)
  }

  function Unresolved(h: seq<Verification>, m: Matching, active: seq<Verification>, n: nat): seq<Verification>
    requires n <= |h|
    requires FromHistory(h, active)
  {
    if n == 0 then []
    else
      var init := Unresolved(h, m, active, n - 1);
      if Pending(h, m, active, n - 1) then init + [h[n - 1]] else init
  }

  function Historical(inactive: seq<Verification>, unresolved: seq<Verification>): seq<Verification> {
    Inactive(inactive, unresolved)
  }

  // ------------------------------------------------------------------ the three lists partition the history

  /** The entries among the first `n` whose position satisfies `p`, in order. */
  ghost function Select(h: seq<Verification>, p: nat -> bool, n: nat): seq<Verification>
    requires n <= |h|
  {
    if n == 0 then []
    else if p(n - 1) then Select(h, p, n - 1) + [h[n - 1]]
    else Select(h, p, n - 1)
  }

  lemma {:induction false} EntriesAreSelected(h: seq<Verification>, m: Matching, p: nat -> bool, n: nat)
    requires n <= |h| && forall i: nat :: i < n ==> (p(i) <==> InForce(h, m, i))
    ensures EntriesInForce(h, m, n) == Select(h, p, n)
    decreases n
  {
    if n > 0 { EntriesAreSelected(h, m, p, n - 1); }
  }

  lemma {:induction false} SelectMembers(h: seq<Verification>, p: nat -> bool, n: nat)
    requires n <= |h|
    ensures forall v :: v in Select(h, p, n) <==> exists i: nat :: i < n && p(i) && h[i] == v
    decreases n
  {
    if n > 0 {
      SelectMembers(h, p, n - 1);
      forall v ensures v in Select(h, p, n) <==> exists i: nat :: i < n && p(i) && h[i] == v {
        if i: nat :| i < n && p(i) && h[i] == v {
          assert i < n - 1 ==> v in Select(h, p, n - 1);
        }
      }
    }
  }

  lemma SelectContains(h: seq<Verification>, p: nat -> bool, i: nat)
    requires DistinctEntries(h) && i < |h|
    ensures Contains(Select(h, p, |h|), h[i].id) <==> p(i)
  {
    var s := Select(h, p, |h|);
    SelectMembers(h, p, |h|);
    if Contains(s, h[i].id) {
      var k :| 0 <= k < |s| && s[k].id == h[i].id;
      assert s[k] in s;
      var j: nat :| j < |h| && p(j) && h[j] == s[k];
    }
    if p(i) {
      assert h[i] in s;
      var k :| 0 <= k < |s| && s[k] == h[i];
    }
  }

  lemma ActiveFromHistory(h: seq<Verification>, m: Matching)
    ensures FromHistory(h, Active(h, m))
  {
    var p := (i: nat) => InForce(h, m, i);
    EntriesAreSelected(h, m, p, |h|);
    SelectMembers(h, p, |h|);
    forall k | 0 <= k < |Active(h, m)| ensures Contains(h, Active(h, m)[k].id) {
      assert Active(h, m)[k] in Active(h, m);
    }
  }

  lemma PositionOf(h: seq<Verification>, j: nat)
    requires DistinctEntries(h) && j < |h|
    ensures Contains(h, h[j].id) && Position(h, h[j].id) == j
  {
    var p := Position(h, h[j].id);
    assert h[p].id == h[j].id;
  }

  /** An entry counts as answered exactly when an entry in force after it displaces it. */
  lemma AnsweredMeaning(h: seq<Verification>, m: Matching, i: nat)
    requires DistinctEntries(h) && i < |h|
    requires FromHistory(h, Active(h, m))
    ensures Answered(h, m, Active(h, m), i) <==> DisplacedByActive(h, m, i)
  {
    var active := Active(h, m);
    var p := (i: nat) => InForce(h, m, i);
    EntriesAreSelected(h, m, p, |h|);
    SelectMembers(h, p, |h|);
    if Answered(h, m, active, i) {
      var k :| 0 <= k < |active| && Answers(h, m, active[k], i);
      assert active[k] in active;
      var j: nat :| j < |h| && p(j) && h[j] == active[k];
      PositionOf(h, j);
      assert Displaces(m, h[i], h[j]);
    }
    if DisplacedByActive(h, m, i) {
      var j: nat :| i < j && InForce(h, m, j) && Displaces(m, h[i], h[j]);
      assert p(j) && h[j] in active;
      var k :| 0 <= k < |active| && active[k] == h[j];
      PositionOf(h, j);
      assert Answers(h, m, active[k], i);
    }
  }

  /** Superseded, not terminally replaced, and no entry in force after it displaces it. */
  ghost predicate Open(h: seq<Verification>, m: Matching, i: nat) {
    i < |h| && h[i].superseded && !h[i].replaced && !DisplacedByActive(h, m, i)
  }

  lemma PendingIsOpen(h: seq<Verification>, m: Matching, i: nat)
    requires DistinctEntries(h) && i < |h|
    requires FromHistory(h, Active(h, m))
    ensures Pending(h, m, Active(h, m), i) <==> Open(h, m, i)
  {
    AnsweredMeaning(h, m, i);
  }

  lemma {:induction false} UnresolvedAreOpen(h: seq<Verification>, m: Matching, p: nat -> bool, n: nat)
    requires DistinctEntries(h) && n <= |h|
    requires FromHistory(h, Active(h, m))
    requires forall i: nat :: i < n ==> (p(i) <==> Open(h, m, i))
    ensures Unresolved(h, m, Active(h, m), n) == Select(h, p, n)
    decreases n
  {
    if n > 0 {
      UnresolvedAreOpen(h, m, p, n - 1);
      PendingIsOpen(h, m, n - 1);
    }
  }

  /** Removing by identity from a selection is a narrower selection. */
  lemma {:induction false} InactiveSelected(h: seq<Verification>, p: nat -> bool, out: seq<Verification>,
                                            q: nat -> bool, n: nat)
    requires n <= |h|
    requires forall i: nat :: i < n ==> (q(i) <==> p(i) && !Contains(out, h[i].id))
    ensures Inactive(Select(h, p, n), out) == Select(h, q, n)
    decreases n
  {
    if n > 0 {
      InactiveSelected(h, p, out, q, n - 1);
      var init := Select(h, p, n - 1);
      assert (init + [h[n - 1]])[..|init|] == init;
    }
  }

  lemma {:induction false} SelectAll(h: seq<Verification>, p: nat -> bool, n: nat)
    requires n <= |h| && forall i: nat :: i < n ==> p(i)
    ensures Select(h, p, n) == h[..n]
    decreases n
  {
    if n > 0 {
      SelectAll(h, p, n - 1);
      assert h[..n] == h[..n - 1] + [h[n - 1]];
    }
  }

  ghost function InForceAt(h: seq<Verification>, m: Matching): nat -> bool {
    (i: nat) => InForce(h, m, i)
  }

  ghost function OpenAt(h: seq<Verification>, m: Matching): nat -> bool {
    (i: nat) => Open(h, m, i)
  }

  ghost function NeitherAt(h: seq<Verification>, m: Matching): nat -> bool {
    (i: nat) => !InForce(h, m, i) && !Open(h, m, i)
  }

  /** The three lists the program derives from a history (`active_verifications` and the two below). */
  ghost function UnresolvedOf(h: seq<Verification>, m: Matching): seq<Verification> {
    ActiveFromHistory(h, m);
    Unresolved(h, m, Active(h, m), |h|)
  }

  ghost function HistoricalOf(h: seq<Verification>, m: Matching): seq<Verification> {
    Historical(Inactive(h, Active(h, m)), UnresolvedOf(h, m))
  }

  /** The active, unresolved and historical lists are the parts of the history, in order, where an entry
      is in force, is open, and is neither. No entry is both in force and open. */
  lemma HistoryPartition(h: seq<Verification>, m: Matching)
    requires DistinctEntries(h)
    ensures Active(h, m) == Select(h, InForceAt(h, m), |h|)
    ensures UnresolvedOf(h, m) == Select(h, OpenAt(h, m), |h|)
    ensures HistoricalOf(h, m) == Select(h, NeitherAt(h, m), |h|)
    ensures forall i: nat :: !(InForce(h, m, i) && Open(h, m, i))
  {
    ActiveFromHistory(h, m);
    EntriesAreSelected(h, m, InForceAt(h, m), |h|);
    UnresolvedAreOpen(h, m, OpenAt(h, m), |h|);
    InactiveOf(h, m, Active(h, m), UnresolvedOf(h, m));
  }

  /** In which list an entry is: in force if it is not superseded and no later decision of its reviewer that is not
      superseded matches it; unresolved if it is superseded, was not replaced and no later one in force matches it;
      and historical otherwise. */
  lemma WhereItIs(h: seq<Verification>, m: Matching, i: nat)
    requires DistinctEntries(h) && i < |h|
    ensures h[i] in Active(h, m) <==>
      !h[i].superseded
      && forall j :: i < j < |h| && !h[j].superseded && h[j].reviewer == h[i].reviewer ==> !m(h[i], h[j])
    ensures h[i] in UnresolvedOf(h, m) <==>
      h[i].superseded && !h[i].replaced
      && forall j :: i < j < |h| && h[j] in Active(h, m) && h[j].reviewer == h[i].reviewer ==> !m(h[i], h[j])
    ensures h[i] in HistoricalOf(h, m) <==> h[i] !in Active(h, m) && h[i] !in UnresolvedOf(h, m)
  {
    HistoryPartition(h, m);
    SelectedExactly(h, InForceAt(h, m), i);
    SelectedExactly(h, OpenAt(h, m), i);
    SelectedExactly(h, NeitherAt(h, m), i);
    forall j: nat | j < |h| ensures h[j] in Active(h, m) <==> InForce(h, m, j) {
      SelectedExactly(h, InForceAt(h, m), j);
    }
    assert DisplacedByActive(h, m, i) <==>
      exists j :: i < j < |h| && h[j] in Active(h, m) && Displaces(m, h[i], h[j]);
  }

  lemma SelectedExactly(h: seq<Verification>, p: nat -> bool, i: nat)
    requires DistinctEntries(h) && i < |h|
    ensures h[i] in Select(h, p, |h|) <==> p(i)
  {
    SelectMembers(h, p, |h|);
  }

  lemma InactiveOf(h: seq<Verification>, m: Matching, active: seq<Verification>, unresolved: seq<Verification>)
    requires DistinctEntries(h)
    requires active == Select(h, InForceAt(h, m), |h|) && unresolved == Select(h, OpenAt(h, m), |h|)
    ensures Historical(Inactive(h, active), unresolved) == Select(h, NeitherAt(h, m), |h|)
  {
    var n := |h|;
    var all, out := (i: nat) => true, (i: nat) => !InForce(h, m, i);
    SelectAll(h, all, n);
    assert h[..n] == h;
    forall i: nat | i < n
      ensures Contains(active, h[i].id) <==> InForce(h, m, i)
      ensures Contains(unresolved, h[i].id) <==> Open(h, m, i)
    {
      SelectContains(h, InForceAt(h, m), i);
      SelectContains(h, OpenAt(h, m), i);
    }
    InactiveSelected(h, all, active, out, n);
    InactiveSelected(h, out, unresolved, NeitherAt(h, m), n);
  }
}
